/** The service worker and the client as they are written, cut at every `await`: a method is what
    runs between two of them. Each is one step of the protocol. */
module SyncWorker {
  import opened Bytes
  import opened Cbor
  import opened JsCbor
  import opened JsBundle
  import opened SyncProtocol
  import JsMerkle

  /** The bundle kept in IndexedDB, and the broadcast channel with what waits in it for the page. */
  class Shared {
    var current: Option<JsBundle>
    var sent: seq<Message>
    var listening: bool
    var inbox: seq<Message>

    constructor ()
      ensures current == None && sent == [] && !listening && inbox == []
    {
      current, sent, listening, inbox := None, [], false, [];
    }

    method PostMessage(m: Message)
      modifies this
      ensures sent == old(sent) + [m] && current == old(current) && listening == old(listening)
      ensures inbox == if listening then old(inbox) + [m] else old(inbox)
    {
      sent := sent + [m];
      if listening { inbox := inbox + [m]; }
    }
  }

  class DecPKIClient {
    const shared: Shared
    var bundle: Option<JsBundle>
    var loaded: bool
    var loads: map<nat, Load>
    var asked: nat

    ghost function View(): Page
      reads this, shared
    {
      Page(bundle, loaded, shared.listening, shared.inbox, loads, asked)
    }

    constructor (shared: Shared)
      ensures this.shared == shared && bundle == None && !loaded && loads == map[] && asked == 0
    {
      this.shared := shared;
      bundle, loaded, loads, asked := None, false, map[], 0;
    }

    /** `loadBundle()` up to its `await` */
    method StartLoading()
      modifies this
      ensures View() == StartLoad(old(View()))
    {
      loads := loads[asked := Asked];
      asked := asked + 1;
    }

    /** Up to the load of the stored bundle */
    method Init(ghost worker: ServiceWorker, f: Platform)
      requires worker.shared == shared
      modifies this
      ensures Whole(worker, this) == Apply(f, old(Whole(worker, this)), PageInit)
    {
      StartLoading();
    }

    /** The end of `init` */
    method OpenChannel(ghost worker: ServiceWorker, f: Platform)
      requires worker.shared == shared && loaded
      modifies shared
      ensures Whole(worker, this) == Apply(f, old(Whole(worker, this)), PageListen)
    {
      shared.listening := true;
    }

    /** The handler of the broadcast channel, up to its `await` */
    method OnMessage(ghost worker: ServiceWorker, f: Platform)
      requires worker.shared == shared && shared.inbox != []
      modifies this, shared
      ensures Whole(worker, this) == Apply(f, old(Whole(worker, this)), PageReceive)
    {
      var message := shared.inbox[0];
      shared.inbox := shared.inbox[1..];
      if message.BundleUpdated? { StartLoading(); }
    }

    /** The database answers. */
    method LoadAnswered(ghost worker: ServiceWorker, f: Platform, load: nat)
      requires worker.shared == shared && load in loads && loads[load] == Asked
      modifies this
      ensures Whole(worker, this) == Apply(f, old(Whole(worker, this)), PageRead(load))
    {
      loads := loads[load := Got(shared.current)];
    }

    /** And the handler goes on. */
    method LoadResumed(ghost worker: ServiceWorker, f: Platform, load: nat)
      requires worker.shared == shared && load in loads && loads[load].Got?
      modifies this
      ensures Whole(worker, this) == Apply(f, old(Whole(worker, this)), PageSet(load))
    {
      var found := loads[load].found;
      if found.Some? { bundle := found; }
      loaded := true;
      loads := loads - {load};
    }

    method Destroy(ghost worker: ServiceWorker, f: Platform)
      requires worker.shared == shared
      modifies this, shared
      ensures Whole(worker, this) == Apply(f, old(Whole(worker, this)), PageDestroy)
    {
      shared.listening := false;
      shared.inbox := [];
    }

    /** The outcome, for each of which `Decides` says exactly when it is given. */
    method Verify(f: Platform, did: ByteString, now: int) returns (outcome: Outcome)
      ensures Decides(f, bundle, did, now, outcome)
      ensures outcome == ClientVerify(f, bundle, did, now)
    {
      ClientDecides(f, bundle, did, now);
      if bundle.None? { return NO_BUNDLE; }
      var b := bundle.value;
      if Exceeds(f, now, b.expiresAt) { return EXPIRED; }
      var validSigCount := if b.validSigCount.Some? then b.validSigCount.value else -1;
      if LessThan(f, validSigCount, b.threshold) { return QUORUM_FAILURE; }
      var entry := FindEntry(b.identities, did);
      if entry.None? { return NOT_FOUND; }
      var proofValid := CheckProof(f, entry.value.proof, b.snapRoot);
      return if proofValid then VALID else TAMPERED;
    }
  }

  method CheckProof(f: Platform, p: JsProof, root: JsValue) returns (holds: bool)
    ensures holds == ProofHolds(f, p, root)
  {
    var leaf, steps := BytesIn(p.leafHash), StepsIn(p.siblings);
    if leaf.Some? && steps.Some? && root.JUint8Array? {
      holds := JsMerkle.VerifyFromHash(f.sha, leaf.value, steps.value, root.bytes);
    } else {
      holds := f.odd(p, root);
    }
  }

  class ServiceWorker {
    const shared: Shared
    var syncInProgress: bool
    var running: map<nat, Phase>
    var started: nat

    ghost function View(): Worker
      reads this
    {
      Worker(syncInProgress, running, started)
    }

    constructor (shared: Shared)
      ensures this.shared == shared && View() == Worker(false, map[], 0)
    {
      this.shared := shared;
      syncInProgress, running, started := false, map[], 0;
    }

    /** `doSync` up to the first `await` */
    method DoSync(ghost page: DecPKIClient, f: Platform)
      requires page.shared == shared
      modifies this
      ensures Whole(this, page) == Apply(f, old(Whole(this, page)), Call)
    {
      if syncInProgress { return; }
      syncInProgress := true;
      running := running[started := Fetching];
      started := started + 1;
    }

    /** The `finally` block */
    method Finish(id: nat)
      modifies this
      ensures View() == Ended(old(View()), id)
    {
      syncInProgress := false;
      running := running - {id};
    }

    method AfterFetch(ghost page: DecPKIClient, f: Platform, id: nat, good: bool)
      requires page.shared == shared && id in running && running[id].Fetching?
      modifies this
      ensures Whole(this, page) == Apply(f, old(Whole(this, page)), Fetched(id, good))
    {
      if good {
        running := running[id := Reading];
      } else {
        running := running[id := Failing(AtFetch)];
      }
    }

    /** None stands for a body that does not arrive or does not parse. */
    method AfterArrayBuffer(ghost page: DecPKIClient, f: Platform, id: nat, doc: Option<JsValue>, now: int)
      requires page.shared == shared && id in running && running[id].Reading?
      modifies this
      ensures Whole(this, page) == Apply(f, old(Whole(this, page)), BodyRead(id, Decoded(doc), now))
    {
      if doc.None? {
        running := running[id := Failing(AtDecode)];
        return;
      }
      var decoded := DecodeBundle(doc.value, false);
      if decoded.Threw? {
        running := running[id := Failing(AtDecode)];
      } else {
        running := running[id := Validating(decoded.value, now)];
      }
    }

    method AfterValidation(ghost page: DecPKIClient, f: Platform, id: nat)
      requires page.shared == shared && id in running && running[id].Validating?
      modifies this
      ensures Whole(this, page) == Apply(f, old(Whole(this, page)), Checked(id))
    {
      var bundle := ValidateBundle(f, running[id].bundle, running[id].now);
      if bundle.Threw? {
        running := running[id := Failing(AtValidate)];
      } else {
        running := running[id := Saving(bundle.value, false)];
      }
    }

    /** The database takes the bundle. */
    method Put(ghost page: DecPKIClient, f: Platform, id: nat)
      requires page.shared == shared && id in running && running[id].Saving? && !running[id].written
      modifies this, shared
      ensures Whole(this, page) == Apply(f, old(Whole(this, page)), Written(id))
    {
      var bundle := running[id].bundle;
      shared.current := Some(bundle);
      running := running[id := Saving(bundle, true)];
    }

    method AfterSaveBundle(ghost page: DecPKIClient, f: Platform, id: nat, good: bool)
      requires page.shared == shared && id in running && running[id].Saving? && running[id].written == good
      modifies this
      ensures Whole(this, page) == Apply(f, old(Whole(this, page)), PutSettled(id, good))
    {
      if good {
        running := running[id := SavingState(running[id].bundle)];
      } else {
        running := running[id := Failing(AtSave)];
      }
    }

    /** The end of the `try` block, or of the `catch` block */
    method AfterSaveSyncState(ghost page: DecPKIClient, f: Platform, id: nat, good: bool)
      requires page.shared == shared && id in running && (running[id].SavingState? || running[id].Failing?)
      modifies this, shared
      ensures Whole(this, page) == Apply(f, old(Whole(this, page)), StateSettled(id, good))
    {
      var phase := running[id];
      if phase.SavingState? && !good {
        running := running[id := Failing(AtState)];
        return;
      }
      if good {
        shared.PostMessage(if phase.SavingState? then BundleUpdated(phase.bundle.expiresAt) else SyncFailed(phase.why));
      }
      Finish(id);
    }
  }

  function Decoded(doc: Option<JsValue>): Try<JsBundle> {
    match doc case None => Threw case Some(m) => DecodeBundle(m, false)
  }

  /** The state of the protocol that the objects are in. */
  ghost function Whole(w: ServiceWorker, c: DecPKIClient): State
    reads w, w.shared, c, c.shared
  {
    State(w.View(), w.shared.current, c.View(), w.shared.sent)
  }
}
