/** The synchronisation of trust bundles in the browser (browser/sw/decpki-sw.js,
    browser/src/index.js) as a protocol of asynchronous steps: between any two of them other calls,
    pages and the death of the service worker may come. */
module SyncProtocol {
  import opened Bytes
  import opened Cbor
  import opened JsCbor
  import opened JsBundle
  import Merkle

  /** Where a sync threw. */
  datatype Failure = AtFetch | AtDecode | AtValidate | AtSave | AtState

  /** What a call of `doSync` that is past the guard waits for. `written` says that the database has
      taken the bundle, of which the worker has not heard yet. */
  datatype Phase =
    | Fetching
    | Reading
    | Validating(bundle: JsBundle, now: int)
    | Saving(bundle: JsBundle, written: bool)
    | SavingState(bundle: JsBundle)
    | Failing(why: Failure)

  datatype Message = BundleUpdated(expiresAt: JsValue) | SyncFailed(why: Failure)

  /** `flag` is `syncInProgress`. */
  datatype Worker = Worker(flag: bool, running: map<nat, Phase>, started: nat)

  /** A `loadBundle()` of the page that is under way. */
  datatype Load = Asked | Got(found: Option<JsBundle>)

  /** `loaded` says that a load has settled, after which `init` goes on to open the channel. */
  datatype Page = Page(
    bundle: Option<JsBundle>, loaded: bool, listening: bool, inbox: seq<Message>, loads: map<nat, Load>, asked: nat)

  datatype State = State(worker: Worker, db: Option<JsBundle>, page: Page, sent: seq<Message>)

  const START := State(Worker(false, map[], 0), None, Page(None, false, false, [], map[], 0), [])

  datatype Step =
    | Call
    | Fetched(id: nat, good: bool)
    | BodyRead(id: nat, decoded: Try<JsBundle>, now: int)
    | Checked(id: nat)
    | Written(id: nat)
    | PutSettled(id: nat, good: bool)
    | StateSettled(id: nat, good: bool)
    | Kill
    | PageInit
    | PageListen
    | PageReceive
    | PageRead(load: nat)
    | PageSet(load: nat)
    | PageDestroy

  ghost predicate In(s: State, id: nat, p: Phase -> bool) {
    id in s.worker.running && p(s.worker.running[id])
  }

  ghost predicate Enabled(s: State, step: Step) {
    match step
    case Fetched(id, _) => In(s, id, (p: Phase) => p.Fetching?)
    case BodyRead(id, _, _) => In(s, id, (p: Phase) => p.Reading?)
    case Checked(id) => In(s, id, (p: Phase) => p.Validating?)
    case Written(id) => In(s, id, (p: Phase) => p.Saving? && !p.written)
    case PutSettled(id, good) => In(s, id, (p: Phase) => p.Saving? && p.written == good)
    case StateSettled(id, _) => In(s, id, (p: Phase) => p.SavingState? || p.Failing?)
    case PageListen => s.page.loaded
    case PageReceive => s.page.inbox != []
    case PageRead(load) => load in s.page.loads && s.page.loads[load].Asked?
    case PageSet(load) => load in s.page.loads && s.page.loads[load].Got?
    case _ => true
  }

  // ----- the service worker

  /** `if (syncInProgress) return; syncInProgress = true;` and the start of the fetch. */
  function Called(w: Worker): Worker {
    if w.flag then w else Worker(true, w.running[w.started := Fetching], w.started + 1)
  }

  function Moved(w: Worker, id: nat, p: Phase): Worker { w.(running := w.running[id := p]) }

  /** `finally { syncInProgress = false; }` */
  function Ended(w: Worker, id: nat): Worker { w.(flag := false, running := w.running - {id}) }

  /** Up to the first signature check: `decoded` is what `decodeBundle` makes of the body, which may
      be any bundle at all, or threw, as a body does that does not arrive or does not parse. */
  function AfterBody(decoded: Try<JsBundle>, now: int): Phase {
    match decoded
    case Threw => Failing(AtDecode)
    case Ok(b) => Validating(b, now)
  }

  function AfterCheck(f: Platform, b: JsBundle, now: int): Phase {
    match Validated(f, b, now)
    case Threw => Failing(AtValidate)
    case Ok(validated) => Saving(validated, false)
  }

  /** `channel.postMessage`: a page gets it if it listens. */
  function Posted(s: State, m: Message): State {
    s.(sent := s.sent + [m], page := if s.page.listening then s.page.(inbox := s.page.inbox + [m]) else s.page)
  }

  /** The sync state has been saved, or not. After a success the update is announced; a failure there
      is handled like any other, and a failure in the handler is not announced. */
  function AfterState(s: State, id: nat, p: Phase, good: bool): State {
    if p.SavingState? then
      if good then Posted(s.(worker := Ended(s.worker, id)), BundleUpdated(p.bundle.expiresAt))
      else s.(worker := Moved(s.worker, id, Failing(AtState)))
    else if p.Failing? && good then Posted(s.(worker := Ended(s.worker, id)), SyncFailed(p.why))
    else s.(worker := Ended(s.worker, id))
  }

  function WorkerStep(f: Platform, s: State, id: nat, p: Phase, step: Step): State {
    match (step, p)
    case (Fetched(_, good), _) => s.(worker := Moved(s.worker, id, if good then Reading else Failing(AtFetch)))
    case (BodyRead(_, decoded, now), _) => s.(worker := Moved(s.worker, id, AfterBody(decoded, now)))
    case (Checked(_), Validating(b, now)) => s.(worker := Moved(s.worker, id, AfterCheck(f, b, now)))
    case (Written(_), Saving(b, _)) => s.(db := Some(b), worker := Moved(s.worker, id, Saving(b, true)))
    case (PutSettled(_, good), Saving(b, _)) =>
      s.(worker := Moved(s.worker, id, if good then SavingState(b) else Failing(AtSave)))
    case (StateSettled(_, good), _) => AfterState(s, id, p, good)
    case _ => s
  }

  // ----- the page

  function StartLoad(p: Page): Page { p.(loads := p.loads[p.asked := Asked], asked := p.asked + 1) }

  /** A handler of a BUNDLE_UPDATED message starts to load; any other message is ignored. */
  function Received(p: Page): Page
    requires p.inbox != []
  {
    var rest := p.(inbox := p.inbox[1..]);
    if p.inbox[0].BundleUpdated? then StartLoad(rest) else rest
  }

  /** `if (fresh) this._bundle = fresh;` */
  function LoadSettled(p: Page, load: nat, found: Option<JsBundle>): Page {
    p.(bundle := if found.Some? then found else p.bundle, loaded := true, loads := p.loads - {load})
  }

  function PageStep(s: State, step: Step): State
    requires Enabled(s, step)
  {
    match step
    case PageInit => s.(page := StartLoad(s.page))
    case PageListen => s.(page := s.page.(listening := true))
    case PageReceive => s.(page := Received(s.page))
    case PageRead(load) => s.(page := s.page.(loads := s.page.loads[load := Got(s.db)]))
    case PageSet(load) => s.(page := LoadSettled(s.page, load, s.page.loads[load].found))
    case PageDestroy => s.(page := s.page.(listening := false, inbox := []))
    case _ => s
  }

  function WorkerId(step: Step): Option<nat> {
    match step
    case Fetched(id, _) => Some(id)
    case BodyRead(id, _, _) => Some(id)
    case Checked(id) => Some(id)
    case Written(id) => Some(id)
    case PutSettled(id, _) => Some(id)
    case StateSettled(id, _) => Some(id)
    case _ => None
  }

  /** Killing the worker ends its calls, aborts what the database has not taken, and resets the flag
      with the rest of the module when it starts again. */
  function Apply(f: Platform, s: State, step: Step): State
    requires Enabled(s, step)
  {
    match WorkerId(step)
    case Some(id) => WorkerStep(f, s, id, s.worker.running[id], step)
    case None =>
      if step.Call? then s.(worker := Called(s.worker))
      else if step.Kill? then s.(worker := Worker(false, map[], s.worker.started))
      else PageStep(s, step)
  }

  ghost predicate Legal(f: Platform, s: State, steps: seq<Step>)
    decreases |steps|
  {
    steps == [] || (Enabled(s, steps[0]) && Legal(f, Apply(f, s, steps[0]), steps[1..]))
  }

  ghost function Run(f: Platform, s: State, steps: seq<Step>): State
    requires Legal(f, s, steps)
    decreases |steps|
  {
    if steps == [] then s else Run(f, Apply(f, s, steps[0]), steps[1..])
  }

  // ----- the client's check

  datatype Outcome = NO_BUNDLE | EXPIRED | QUORUM_FAILURE | NOT_FOUND | TAMPERED | VALID

  /** `bundle.identities.find((e) => e.record.did === did)` */
  function FindEntry(entries: seq<JsEntry>, did: ByteString): Option<JsEntry> {
    if entries == [] then None
    else if entries[0].record.did == JString(did) then Some(entries[0])
    else FindEntry(entries[1..], did)
  }

  /** The bytes that `new Uint8Array(v)` keeps of a byte array or a buffer. */
  function BytesIn(v: JsValue): Option<ByteString> {
    match v
    case JUint8Array(bs) => Some(bs)
    case JArrayBuffer(bs) => Some(bs)
    case _ => None
  }

  function StepsIn(siblings: seq<JsSibling>): Option<seq<Merkle.Step>> {
    if siblings == [] then Some([])
    else
      match (BytesIn(siblings[0].h), StepsIn(siblings[1..]))
      case (Some(h), Some(rest)) => Some([Merkle.Step(h, siblings[0].s == JString(Ascii("left")))] + rest)
      case _ => None
  }

  /** `verifyMerkleProofFromHash` */
  function ProofHolds(f: Platform, p: JsProof, root: JsValue): bool {
    match (BytesIn(p.leafHash), StepsIn(p.siblings), root)
    case (Some(leaf), Some(steps), JUint8Array(r)) => Merkle.Climb(f.sha, leaf, steps) == r
    case _ => f.odd(p, root)
  }

  function CountOf(b: JsBundle): int { match b.validSigCount case Some(n) => n case None => -1 }

  /** The client's `verify` at second `now`. */
  function ClientVerify(f: Platform, bundle: Option<JsBundle>, did: ByteString, now: int): Outcome {
    match bundle
    case None => NO_BUNDLE
    case Some(b) =>
      if Exceeds(f, now, b.expiresAt) then EXPIRED
      else if LessThan(f, CountOf(b), b.threshold) then QUORUM_FAILURE
      else
        match FindEntry(b.identities, did)
        case None => NOT_FOUND
        case Some(e) => if ProofHolds(f, e.proof, b.snapRoot) then VALID else TAMPERED
  }

  /** The first entry with the DID. */
  ghost predicate IsFirst(entries: seq<JsEntry>, did: ByteString, k: int) {
    0 <= k < |entries| && entries[k].record.did == JString(did) &&
    forall j :: 0 <= j < k ==> entries[j].record.did != JString(did)
  }

  /** Which outcome the check has, each exactly when its step fails and all before it pass. */
  ghost predicate Decides(f: Platform, bundle: Option<JsBundle>, did: ByteString, now: int, outcome: Outcome) {
    if bundle.None? then outcome == NO_BUNDLE else DecidesOn(f, bundle.value, did, now, outcome)
  }

  ghost predicate DecidesOn(f: Platform, b: JsBundle, did: ByteString, now: int, outcome: Outcome) {
    var current := !Exceeds(f, now, b.expiresAt);
    var quorate := !LessThan(f, CountOf(b), b.threshold);
    && outcome != NO_BUNDLE
    && (outcome == EXPIRED <==> !current)
    && (outcome == QUORUM_FAILURE <==> current && !quorate)
    && (outcome == NOT_FOUND <==> current && quorate && forall e :: e in b.identities ==> e.record.did != JString(did))
    && (outcome == VALID <==> current && quorate && FirstHolds(f, b, did))
    && (outcome == TAMPERED <==> current && quorate && FirstFails(f, b, did))
  }

  ghost predicate FirstHolds(f: Platform, b: JsBundle, did: ByteString) {
    exists k :: IsFirst(b.identities, did, k) && ProofHolds(f, b.identities[k].proof, b.snapRoot)
  }

  ghost predicate FirstFails(f: Platform, b: JsBundle, did: ByteString) {
    exists k :: IsFirst(b.identities, did, k) && !ProofHolds(f, b.identities[k].proof, b.snapRoot)
  }

  lemma {:induction false} FirstFound(entries: seq<JsEntry>, did: ByteString) returns (k: nat)
    ensures FindEntry(entries, did).None? <==> forall e :: e in entries ==> e.record.did != JString(did)
    ensures FindEntry(entries, did).Some? ==> IsFirst(entries, did, k) && FindEntry(entries, did) == Some(entries[k])
  {
    k := 0;
    if entries == [] {
    } else {
      assert entries == [entries[0]] + entries[1..];
      if entries[0].record.did != JString(did) {
        var j := FirstFound(entries[1..], did);
        k := j + 1;
        assert forall i :: 0 < i < |entries| ==> entries[i] == entries[1..][i - 1];
      }
    }
  }

  lemma {:induction false} OneFirst(entries: seq<JsEntry>, did: ByteString, i: int, k: int)
    requires IsFirst(entries, did, i) && IsFirst(entries, did, k)
    ensures i == k
  {
  }

  lemma {:induction false} ClientDecides(f: Platform, bundle: Option<JsBundle>, did: ByteString, now: int)
    ensures Decides(f, bundle, did, now, ClientVerify(f, bundle, did, now))
  {
    if bundle.Some? {
      var b := bundle.value;
      var k := FirstFound(b.identities, did);
      forall i | IsFirst(b.identities, did, i) ensures FindEntry(b.identities, did) == Some(b.identities[i]) {
        assert b.identities[i] in b.identities;
        OneFirst(b.identities, did, i, k);
      }
    }
  }

  /** Fail closed: a bundle to which no count of valid signatures is attached is not accepted, if its threshold
      is a number from zero on. */
  lemma {:induction false} UncountedFailsClosed(f: Platform, b: JsBundle, did: ByteString, now: int, threshold: real)
    requires b.validSigCount.None? && ToNumber(f, b.threshold) == Finite(threshold) && threshold >= 0.0
    ensures ClientVerify(f, Some(b), did, now) in {EXPIRED, QUORUM_FAILURE}
  {
  }

  // ----- invariants

  /** The bundle came out of validation. */
  ghost predicate Trusted(f: Platform, b: JsBundle) {
    exists raw, now :: Validated(f, raw, now) == Ok(b)
  }

  ghost predicate TrustedIfAny(f: Platform, b: Option<JsBundle>) { b.Some? ==> Trusted(f, b.value) }

  ghost predicate PhaseInv(f: Platform, p: Phase, db: Option<JsBundle>) {
    match p
    case Saving(b, written) => Trusted(f, b) && (written ==> db == Some(b))
    case SavingState(b) => Trusted(f, b) && db == Some(b)
    case _ => true
  }

  /** At most one sync is past the guard, and the flag tells whether one is. */
  ghost predicate Guarded(w: Worker) {
    && (forall i, j :: i in w.running && j in w.running ==> i == j)
    && (w.flag <==> exists i :: i in w.running)
    && (forall i :: i in w.running ==> i < w.started)
  }

  ghost predicate PageInv(f: Platform, p: Page) {
    && TrustedIfAny(f, p.bundle)
    && (forall l :: l in p.loads && p.loads[l].Got? ==> TrustedIfAny(f, p.loads[l].found))
  }

  ghost predicate Inv(f: Platform, s: State) {
    && Guarded(s.worker) && TrustedIfAny(f, s.db) && PageInv(f, s.page)
    && (forall i :: i in s.worker.running ==> PhaseInv(f, s.worker.running[i], s.db))
  }

  lemma {:induction false} MovedGuarded(w: Worker, id: nat, p: Phase)
    requires Guarded(w) && id in w.running
    ensures Guarded(Moved(w, id, p))
  {
    assert id in Moved(w, id, p).running;
  }

  lemma {:induction false} EndedGuarded(w: Worker, id: nat)
    requires Guarded(w) && id in w.running
    ensures Guarded(Ended(w, id))
  {
  }

  lemma {:induction false} CalledGuarded(w: Worker)
    requires Guarded(w)
    ensures Guarded(Called(w))
  {
    assert !w.flag ==> w.started in Called(w).running;
  }

  lemma {:induction false} WorkerStepKeeps(f: Platform, s: State, step: Step)
    requires Inv(f, s) && Enabled(s, step) && WorkerId(step).Some?
    ensures Inv(f, Apply(f, s, step))
  {
    var id := WorkerId(step).value;
    var p := s.worker.running[id];
    EndedGuarded(s.worker, id);
    forall q ensures Guarded(Moved(s.worker, id, q)) { MovedGuarded(s.worker, id, q); }
    if step.Checked? && Validated(f, p.bundle, p.now).Ok? {
      assert Trusted(f, Validated(f, p.bundle, p.now).value);
    }
  }

  /** Every step keeps it all: at most one sync past the guard, a stored bundle that is absent or
      validated, and a page that holds none other. */
  lemma {:induction false} StepKeeps(f: Platform, s: State, step: Step)
    requires Inv(f, s) && Enabled(s, step)
    ensures Inv(f, Apply(f, s, step))
  {
    CalledGuarded(s.worker);
    if WorkerId(step).Some? { WorkerStepKeeps(f, s, step); }
  }

  lemma {:induction false} RunKeeps(f: Platform, s: State, steps: seq<Step>)
    requires Inv(f, s) && Legal(f, s, steps)
    ensures Inv(f, Run(f, s, steps))
    decreases |steps|
  {
    if steps == [] {
    } else {
      StepKeeps(f, s, steps[0]);
      RunKeeps(f, Apply(f, s, steps[0]), steps[1..]);
    }
  }

  /** `x >= y`; false if one of them is NaN. */
  predicate AtLeast(x: Number, y: Number) { Below(y, x) || (x == y && x != NaN) }

  /** The count of valid signatures reaches the threshold. */
  ghost predicate ReachesQuorum(f: Platform, b: JsBundle) {
    AtLeast(Finite(CountOf(b) as real), ToNumber(f, b.threshold))
  }

  /** The expiry is not past. */
  ghost predicate NotPast(f: Platform, b: JsBundle, now: int) {
    AtLeast(ToNumber(f, b.expiresAt), Finite(now as real))
  }

  /** What validation vouches for: the count is that of the signatures that check over the bytes that
      are signed, and it reaches the threshold exactly if that is not NaN when taken as a number. */
  lemma {:induction false} TrustedMeans(f: Platform, b: JsBundle)
    requires Trusted(f, b)
    ensures b.fmtVer == JNumber(1.0) && b.validSigCount.Some? && ToCbor(Payload(b)).Some?
    ensures b.validSigCount == Some(|Checking(f.check, b.signatures, Encode(ToCbor(Payload(b)).value))|)
    ensures ReachesQuorum(f, b) <==> !ToNumber(f, b.threshold).NaN?
    ensures !LessThan(f, CountOf(b), b.threshold)
  {
    var raw, now :| Validated(f, raw, now) == Ok(b);
    ValidatesIff(f, raw, now);
    assert Payload(raw) == Payload(b);
  }

  lemma {:induction false} TrustedIsQuorate(f: Platform, b: JsBundle, did: ByteString, now: int)
    requires Trusted(f, b)
    ensures ClientVerify(f, Some(b), did, now) != QUORUM_FAILURE
  {
    TrustedMeans(f, b);
  }

  // ----- theorems

  /** From an empty database, under every interleaving, the client's check never ends in a quorum
      failure. */
  lemma {:induction false} NeverQuorumFailure(f: Platform, steps: seq<Step>, did: ByteString, now: int)
    requires Legal(f, START, steps)
    ensures ClientVerify(f, Run(f, START, steps).page.bundle, did, now) != QUORUM_FAILURE
    ensures TrustedIfAny(f, Run(f, START, steps).db)
    ensures Guarded(Run(f, START, steps).worker)
  {
    RunKeeps(f, START, steps);
    var bundle := Run(f, START, steps).page.bundle;
    if bundle.Some? { TrustedIsQuorate(f, bundle.value, did, now); }
  }

  /** Neither comparison has failed. */
  lemma {:induction false} PassedComparisons(f: Platform, b: JsBundle, did: ByteString, now: int)
    requires ClientVerify(f, Some(b), did, now) == VALID
    ensures ReachesQuorum(f, b) <==> !ToNumber(f, b.threshold).NaN?
    ensures NotPast(f, b, now) <==> !ToNumber(f, b.expiresAt).NaN?
  {
  }

  lemma {:induction false} FirstPasses(f: Platform, b: JsBundle, did: ByteString, now: int) returns (k: nat)
    requires ClientVerify(f, Some(b), did, now) == VALID
    ensures IsFirst(b.identities, did, k) && ProofHolds(f, b.identities[k].proof, b.snapRoot)
  {
    k := FirstFound(b.identities, did);
  }

  /** Where it answers VALID, the bundle has come out of validation and the proof of the DID's first
      entry climbs to the root. The signatures reach the threshold, and the time is not past the expiry,
      exactly if that field is not NaN when taken as a number. */
  lemma {:induction false} ClientValidMeans(f: Platform, steps: seq<Step>, did: ByteString, now: int) returns (k: nat)
    requires Legal(f, START, steps)
    requires ClientVerify(f, Run(f, START, steps).page.bundle, did, now) == VALID
    ensures var b := Run(f, START, steps).page.bundle.value;
      && Trusted(f, b) && IsFirst(b.identities, did, k) && ProofHolds(f, b.identities[k].proof, b.snapRoot)
      && (ReachesQuorum(f, b) <==> !ToNumber(f, b.threshold).NaN?)
      && (NotPast(f, b, now) <==> !ToNumber(f, b.expiresAt).NaN?)
  {
    RunKeeps(f, START, steps);
    var b := Run(f, START, steps).page.bundle.value;
    PassedComparisons(f, b, did, now);
    k := FirstPasses(f, b, did, now);
  }

  /** The two fields are those of the document. */
  lemma {:induction false} FieldsOfDocument(m: JsValue, page: bool)
    requires DecodeBundle(m, page).Ok?
    ensures Member(m, "threshold") == Ok(DecodeBundle(m, page).value.threshold)
    ensures Member(m, "expires_at") == Ok(DecodeBundle(m, page).value.expiresAt)
  {
  }

  /** The stored bundle changes only where a sync writes a bundle that it has validated. */
  lemma {:induction false} OnlyWritesChange(f: Platform, s: State, step: Step)
    requires Inv(f, s) && Enabled(s, step) && Apply(f, s, step).db != s.db
    ensures step.Written? && s.worker.running[step.id].Saving?
    ensures Apply(f, s, step).db == Some(s.worker.running[step.id].bundle)
    ensures Trusted(f, s.worker.running[step.id].bundle)
  {
  }

  /** BUNDLE_UPDATED follows a completed save: whenever it is announced, the bundle announced is the
      one in the database. */
  lemma {:induction false} UpdateFollowsSave(f: Platform, s: State, step: Step, expiresAt: JsValue)
    requires Inv(f, s) && Enabled(s, step)
    requires Apply(f, s, step).sent == s.sent + [BundleUpdated(expiresAt)]
    ensures s.db.Some? && s.db.value.expiresAt == expiresAt && Apply(f, s, step).db == s.db
  {
    var n := |s.sent|;
    assert Apply(f, s, step).sent[n] == BundleUpdated(expiresAt);
  }

  /** The sync has written its bundle. */
  ghost predicate HasWritten(p: Phase) {
    match p
    case Saving(_, written) => written
    case SavingState(_) => true
    case Failing(why) => why == AtState
    case _ => false
  }

  ghost predicate UnwrittenIn(s: State, id: nat) {
    id in s.worker.running && !HasWritten(s.worker.running[id])
  }

  ghost predicate Writes(steps: seq<Step>, id: nat) {
    exists k :: 0 <= k < |steps| && steps[k] == Written(id)
  }

  lemma {:induction false} WritesNext(steps: seq<Step>, id: nat)
    requires steps != []
    ensures Writes(steps, id) <==> steps[0] == Written(id) || Writes(steps[1..], id)
  {
    if k :| 0 <= k < |steps[1..]| && steps[1..][k] == Written(id) { assert steps[k + 1] == Written(id); }
    if k :| 0 < k < |steps| && steps[k] == Written(id) { assert steps[1..][k - 1] == Written(id); }
  }

  lemma {:induction false} UnwrittenStep(f: Platform, s: State, step: Step, id: nat)
    requires Inv(f, s) && Enabled(s, step) && id < s.worker.started
    ensures var s' := Apply(f, s, step);
      && id < s'.worker.started
      && (UnwrittenIn(s', id) ==> UnwrittenIn(s, id) && s'.db == s.db && step != Written(id))
      && (id in s'.worker.running && HasWritten(s'.worker.running[id]) ==>
            id in s.worker.running && (step == Written(id) || HasWritten(s.worker.running[id])))
  {
  }

  /** A sync that was unwritten at first has written exactly if one of the steps did, and if none did
      the stored bundle is as it was. */
  lemma {:induction false} WrittenRun(f: Platform, s: State, steps: seq<Step>, id: nat)
    requires Inv(f, s) && Legal(f, s, steps) && id < s.worker.started
    requires id in Run(f, s, steps).worker.running
    ensures id in s.worker.running
    ensures !HasWritten(s.worker.running[id]) ==>
      (HasWritten(Run(f, s, steps).worker.running[id]) <==> Writes(steps, id))
    ensures UnwrittenIn(Run(f, s, steps), id) ==> UnwrittenIn(s, id) && Run(f, s, steps).db == s.db
    decreases |steps|
  {
    if steps == [] {
    } else {
      UnwrittenStep(f, s, steps[0], id);
      StepKeeps(f, s, steps[0]);
      WrittenRun(f, Apply(f, s, steps[0]), steps[1..], id);
      WritesNext(steps, id);
    }
  }

  /** A sync that fails, called in any state that a run can reach: whatever else happens meanwhile, it
      has written its bundle exactly if it was the sync state that could not be saved; otherwise the
      stored bundle is what it was at the call. The failure is announced if it can be recorded. */
  lemma {:induction false} FailedSync(f: Platform, before: seq<Step>, steps: seq<Step>)
    requires Legal(f, START, before) && !Run(f, START, before).worker.flag
    requires Legal(f, Apply(f, Run(f, START, before), Call), steps)
    requires var id := Run(f, START, before).worker.started;
      var end := Run(f, Apply(f, Run(f, START, before), Call), steps);
      id in end.worker.running && end.worker.running[id].Failing?
    ensures var s := Run(f, START, before);
      var end := Run(f, Apply(f, s, Call), steps);
      var why := end.worker.running[s.worker.started].why;
      && (Writes(steps, s.worker.started) <==> why == AtState)
      && (why != AtState ==> end.db == s.db)
      && Apply(f, end, StateSettled(s.worker.started, true)).sent == end.sent + [SyncFailed(why)]
  {
    RunKeeps(f, START, before);
    FailedFrom(f, Run(f, START, before), steps);
  }

  lemma {:induction false} FailedFrom(f: Platform, s: State, steps: seq<Step>)
    requires Inv(f, s) && !s.worker.flag && Legal(f, Apply(f, s, Call), steps)
    requires var end := Run(f, Apply(f, s, Call), steps);
      s.worker.started in end.worker.running && end.worker.running[s.worker.started].Failing?
    ensures var end := Run(f, Apply(f, s, Call), steps);
      var why := end.worker.running[s.worker.started].why;
      && (Writes(steps, s.worker.started) <==> why == AtState)
      && (why != AtState ==> end.db == s.db)
      && Apply(f, end, StateSettled(s.worker.started, true)).sent == end.sent + [SyncFailed(why)]
  {
    var called := Apply(f, s, Call);
    StepKeeps(f, s, Call);
    WrittenRun(f, called, steps, s.worker.started);
    Announces(f, Run(f, called, steps), s.worker.started);
  }

  lemma {:induction false} Announces(f: Platform, s: State, id: nat)
    requires id in s.worker.running && s.worker.running[id].Failing?
    ensures Apply(f, s, StateSettled(id, true)).sent == s.sent + [SyncFailed(s.worker.running[id].why)]
  {
  }

  /** So it is while a sync is still fetching, decoding, validating or about to save. */
  lemma {:induction false} UnwrittenChangesNothing(f: Platform, s: State, steps: seq<Step>)
    requires Inv(f, s) && !s.worker.flag
    requires Legal(f, Apply(f, s, Call), steps)
    requires UnwrittenIn(Run(f, Apply(f, s, Call), steps), s.worker.started)
    ensures Run(f, Apply(f, s, Call), steps).db == s.db
  {
    StepKeeps(f, s, Call);
    WrittenRun(f, Apply(f, s, Call), steps, s.worker.started);
  }

  /** A request is turned away exactly while a sync is under way; the guard is never left closed. */
  lemma {:induction false} TurnedAwayIff(f: Platform, steps: seq<Step>)
    requires Legal(f, START, steps)
    ensures var s := Run(f, START, steps);
      Apply(f, s, Call) == s <==> s.worker.running != map[]
  {
    RunKeeps(f, START, steps);
    var s := Run(f, START, steps);
    if s.worker.running == map[] {
      assert Called(s.worker).started == s.worker.started + 1;
    } else {
      assert exists i :: i in s.worker.running by { var i :| i in s.worker.running.Keys; assert i in s.worker.running; }
    }
  }
}
