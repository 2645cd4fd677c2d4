/** Where bundles come from, over whole runs: whatever is stored, held or being saved was read by a sync that
    found it unexpired; what a sync has announced reaches a page that listens. */
module SyncHistory {
  import opened Cbor
  import opened JsBundle
  import opened SyncProtocol
  import opened SyncRuns

  // ----- what was read

  ghost predicate ReadsFor(step: Step, id: nat) { step.BodyRead? && step.id == id }

  /** The step read a document, at a second, that validation turns into `b`. */
  ghost predicate ReadsAs(f: Platform, step: Step, b: JsBundle) {
    step.BodyRead? && step.decoded.Ok? && Validated(f, step.decoded.value, step.now) == Ok(b)
  }

  ghost predicate CameFrom(f: Platform, past: seq<Step>, b: JsBundle) {
    exists x :: x in past && ReadsAs(f, x, b)
  }

  ghost predicate CameFromIfAny(f: Platform, past: seq<Step>, b: Option<JsBundle>) {
    b.Some? ==> CameFrom(f, past, b.value)
  }

  ghost predicate ReadOnceAs(f: Platform, past: seq<Step>, id: nat, b: JsBundle) {
    CameFrom(f, past, b) && forall x :: x in past && ReadsFor(x, id) ==> ReadsAs(f, x, b)
  }

  /** What the past has to do with where a sync is. */
  ghost predicate PhaseFits(f: Platform, past: seq<Step>, id: nat, p: Phase) {
    match p
    case Fetching => (forall x :: x in past ==> !ReadsFor(x, id)) && Written(id) !in past
    case Reading => (forall x :: x in past ==> !ReadsFor(x, id)) && Written(id) !in past
    case Validating(b, now) =>
      && (forall x :: x in past && ReadsFor(x, id) ==> x == BodyRead(id, Ok(b), now))
      && BodyRead(id, Ok(b), now) in past && Written(id) !in past
    case Saving(b, _) => ReadOnceAs(f, past, id, b)
    case SavingState(b) => ReadOnceAs(f, past, id, b)
    case Failing(_) => true
  }

  /** A sync that has written had read a document that passes. */
  ghost predicate WroteWhatPasses(f: Platform, past: seq<Step>) {
    forall x, id :: x in past && ReadsFor(x, id) && Written(id) in past ==>
      x.decoded.Ok? && Validated(f, x.decoded.value, x.now).Ok?
  }

  ghost predicate PageFits(f: Platform, past: seq<Step>, p: Page) {
    && CameFromIfAny(f, past, p.bundle)
    && forall l :: l in p.loads && p.loads[l].Got? ==> CameFromIfAny(f, past, p.loads[l].found)
  }

  ghost predicate Fits(f: Platform, past: seq<Step>, s: State) {
    && (forall x :: x in past && WorkerId(x).Some? ==> WorkerId(x).value < s.worker.started)
    && (forall id :: id in s.worker.running ==> id < s.worker.started && PhaseFits(f, past, id, s.worker.running[id]))
    && CameFromIfAny(f, past, s.db) && PageFits(f, past, s.page) && WroteWhatPasses(f, past)
  }

  lemma {:induction false} LaterPage(f: Platform, past: seq<Step>, step: Step, p: Page)
    requires PageFits(f, past, p)
    ensures PageFits(f, past + [step], p)
  {
  }

  lemma {:induction false} LaterCame(f: Platform, past: seq<Step>, step: Step, b: Option<JsBundle>)
    requires CameFromIfAny(f, past, b)
    ensures CameFromIfAny(f, past + [step], b)
  {
  }

  /** A step that is not its own leaves a sync where it is. */
  lemma {:induction false} LaterPhase(f: Platform, past: seq<Step>, step: Step, id: nat, p: Phase)
    requires PhaseFits(f, past, id, p) && WorkerId(step) != Some(id)
    ensures PhaseFits(f, past + [step], id, p)
  {
    match p {
      case Saving(b, _) => LaterCame(f, past, step, Some(b));
      case SavingState(b) => LaterCame(f, past, step, Some(b));
      case _ =>
    }
  }

  /** The phase that a sync enters by its own step. */
  lemma {:induction false} NextPhase(f: Platform, past: seq<Step>, s: State, step: Step, id: nat)
    requires Enabled(s, step) && WorkerId(step) == Some(id) && PhaseFits(f, past, id, s.worker.running[id])
    requires id in Apply(f, s, step).worker.running
    ensures PhaseFits(f, past + [step], id, Apply(f, s, step).worker.running[id])
  {
    var p := s.worker.running[id];
    match p {
      case Validating(b, now) => assert step.Checked? && BodyRead(id, Ok(b), now) in past + [step];
      case Saving(b, _) => LaterCame(f, past, step, Some(b));
      case SavingState(b) => LaterCame(f, past, step, Some(b));
      case _ =>
    }
  }

  lemma {:induction false} NextWrites(f: Platform, past: seq<Step>, s: State, step: Step)
    requires Fits(f, past, s) && Enabled(s, step)
    ensures WroteWhatPasses(f, past + [step])
  {
    forall x, id | x in past + [step] && ReadsFor(x, id) && Written(id) in past + [step]
      ensures x.decoded.Ok? && Validated(f, x.decoded.value, x.now).Ok?
    {
      if step == Written(id) && x in past { assert ReadsAs(f, x, s.worker.running[id].bundle); }
    }
  }

  lemma {:induction false} NextDb(f: Platform, past: seq<Step>, s: State, step: Step)
    requires Fits(f, past, s) && Enabled(s, step)
    ensures CameFromIfAny(f, past + [step], Apply(f, s, step).db)
  {
    LaterCame(f, past, step, s.db);
    if step.Written? { LaterCame(f, past, step, Some(s.worker.running[step.id].bundle)); }
  }

  lemma {:induction false} NextPage(f: Platform, past: seq<Step>, s: State, step: Step)
    requires Fits(f, past, s) && Enabled(s, step)
    ensures PageFits(f, past + [step], Apply(f, s, step).page)
  {
    LaterPage(f, past, step, s.page);
    LaterCame(f, past, step, s.db);
  }

  lemma {:induction false} NextSyncs(f: Platform, past: seq<Step>, s: State, step: Step)
    requires Fits(f, past, s) && Enabled(s, step)
    ensures var s' := Apply(f, s, step);
      forall id :: id in s'.worker.running ==>
        id < s'.worker.started && PhaseFits(f, past + [step], id, s'.worker.running[id])
  {
    var s' := Apply(f, s, step);
    forall id | id in s'.worker.running
      ensures id < s'.worker.started && PhaseFits(f, past + [step], id, s'.worker.running[id])
    {
      if WorkerId(step) == Some(id) {
        NextPhase(f, past, s, step, id);
      } else if id in s.worker.running && s'.worker.running[id] == s.worker.running[id] {
        LaterPhase(f, past, step, id, s.worker.running[id]);
      } else {
        assert step.Call? && id == s.worker.started;
      }
    }
  }

  lemma {:induction false} NextFits(f: Platform, past: seq<Step>, s: State, step: Step)
    requires Fits(f, past, s) && Enabled(s, step)
    ensures Fits(f, past + [step], Apply(f, s, step))
  {
    NextSyncs(f, past, s, step);
    NextDb(f, past, s, step);
    NextPage(f, past, s, step);
    NextWrites(f, past, s, step);
  }

  lemma {:induction false} RunFits(f: Platform, past: seq<Step>, s: State, steps: seq<Step>)
    requires Fits(f, past, s) && Legal(f, s, steps)
    ensures Fits(f, past + steps, Run(f, s, steps))
    decreases |steps|
  {
    if steps == [] {
      assert past + steps == past;
    } else {
      NextFits(f, past, s, steps[0]);
      RunFits(f, past + [steps[0]], Apply(f, s, steps[0]), steps[1..]);
      assert past + [steps[0]] + steps[1..] == past + steps;
    }
  }

  // ----- no expired bundle gets through

  /** Some sync of the run has read this bundle at a second at which it had not expired. */
  ghost predicate WasUnexpired(f: Platform, steps: seq<Step>, b: JsBundle) {
    exists x :: x in steps && x.BodyRead? && x.decoded.Ok? && !IsExpired(f, b, x.now) &&
      x.decoded.value.(validSigCount := b.validSigCount) == b
  }

  lemma {:induction false} CameUnexpired(f: Platform, steps: seq<Step>, b: Option<JsBundle>)
    requires CameFromIfAny(f, steps, b)
    ensures b.Some? ==> WasUnexpired(f, steps, b.value)
  {
    if b.Some? {
      var x :| x in steps && ReadsAs(f, x, b.value);
      ValidatesIff(f, x.decoded.value, x.now);
    }
  }

  /** In every run from an empty database: what is stored, what the page holds or is about to, and what is being
      saved is a document that a sync of this run has read, with its count of signatures, and had not expired
      when that sync read the clock. */
  lemma {:induction false} NothingExpired(f: Platform, steps: seq<Step>)
    requires Legal(f, START, steps)
    ensures var s := Run(f, START, steps);
      && (s.db.Some? ==> WasUnexpired(f, steps, s.db.value))
      && (s.page.bundle.Some? ==> WasUnexpired(f, steps, s.page.bundle.value))
      && (forall l :: l in s.page.loads && s.page.loads[l].Got? && s.page.loads[l].found.Some? ==>
            WasUnexpired(f, steps, s.page.loads[l].found.value))
      && (forall id :: id in s.worker.running && (s.worker.running[id].Saving? || s.worker.running[id].SavingState?) ==>
            WasUnexpired(f, steps, s.worker.running[id].bundle))
  {
    var s := Run(f, START, steps);
    RunFits(f, [], START, steps);
    assert [] + steps == steps;
    CameUnexpired(f, steps, s.db);
    CameUnexpired(f, steps, s.page.bundle);
    forall l | l in s.page.loads && s.page.loads[l].Got?
      ensures s.page.loads[l].found.Some? ==> WasUnexpired(f, steps, s.page.loads[l].found.value)
    {
      CameUnexpired(f, steps, s.page.loads[l].found);
    }
    forall id | id in s.worker.running && (s.worker.running[id].Saving? || s.worker.running[id].SavingState?)
      ensures WasUnexpired(f, steps, s.worker.running[id].bundle)
    {
      assert PhaseFits(f, steps, id, s.worker.running[id]);
      CameUnexpired(f, steps, Some(s.worker.running[id].bundle));
    }
  }

  /** In every run from an empty database, a sync whose document validation refuses, be it that it has expired,
      never writes to the database. */
  lemma {:induction false} RefusedIsNotWritten(f: Platform, steps: seq<Step>, id: nat, raw: JsBundle, now: int)
    requires Legal(f, START, steps) && BodyRead(id, Ok(raw), now) in steps && !Passes(f, raw, now)
    ensures Written(id) !in steps
  {
    RunFits(f, [], START, steps);
    assert [] + steps == steps;
    ValidatesIff(f, raw, now);
    assert ReadsFor(BodyRead(id, Ok(raw), now), id);
  }

  /** Such a sync, called in any state that a run can reach, leaves the database as it was at the call, whatever
      else happens while it lasts; what it ends with is SYNC_FAILED. */
  lemma {:induction false} RefusedSync(f: Platform, before: seq<Step>, steps: seq<Step>, raw: JsBundle, now: int)
    requires Legal(f, START, before) && !Run(f, START, before).worker.flag
    requires Legal(f, Apply(f, Run(f, START, before), Call), steps)
    requires BodyRead(Run(f, START, before).worker.started, Ok(raw), now) in steps && !Passes(f, raw, now)
    ensures var s := Run(f, START, before);
      var id := s.worker.started;
      var end := Run(f, Apply(f, s, Call), steps);
      && Written(id) !in steps
      && (id in end.worker.running ==> end.db == s.db)
      && (In(end, id, (p: Phase) => p.Validating?) ==>
            Apply(f, end, Checked(id)) == end.(worker := Moved(end.worker, id, Failing(AtValidate))))
  {
    var s := Run(f, START, before);
    var id := s.worker.started;
    var called := Apply(f, s, Call);
    var all := before + ([Call] + steps);
    OneMore(f, s, Call, steps, called, Run(f, called, steps));
    RunAppend(f, START, before, [Call] + steps);
    assert BodyRead(id, Ok(raw), now) in all;
    RefusedIsNotWritten(f, all, id, raw, now);
    RunKeeps(f, START, before);
    StepKeeps(f, s, Call);
    if id in Run(f, called, steps).worker.running {
      WrittenRun(f, called, steps, id);
      RefusedAtCheck(f, all, id, raw, now);
    }
  }

  lemma {:induction false} RefusedAtCheck(f: Platform, steps: seq<Step>, id: nat, raw: JsBundle, now: int)
    requires Legal(f, START, steps) && BodyRead(id, Ok(raw), now) in steps && !Passes(f, raw, now)
    requires id in Run(f, START, steps).worker.running
    ensures var end := Run(f, START, steps);
      end.worker.running[id].Validating? ==>
        Apply(f, end, Checked(id)) == end.(worker := Moved(end.worker, id, Failing(AtValidate)))
  {
    RunFits(f, [], START, steps);
    assert [] + steps == steps;
    assert PhaseFits(f, steps, id, Run(f, START, steps).worker.running[id]);
    assert ReadsFor(BodyRead(id, Ok(raw), now), id);
    ValidatesIff(f, raw, now);
  }

  // ----- what a page hears

  /** Loads are numbered; nothing waits for a page that does not listen; an announced update is stored. */
  ghost predicate Orderly(s: State) {
    && (forall l :: l in s.page.loads ==> l < s.page.asked)
    && (!s.page.listening ==> s.page.inbox == [])
    && (forall m :: m in s.page.inbox ==> m in s.sent)
    && (forall m :: m in s.sent && m.BundleUpdated? ==> s.db.Some?)
  }

  lemma {:induction false} StepIsOrderly(f: Platform, s: State, step: Step)
    requires Inv(f, s) && Orderly(s) && Enabled(s, step)
    ensures Orderly(Apply(f, s, step))
  {
  }

  lemma {:induction false} RunIsOrderly(f: Platform, s: State, steps: seq<Step>)
    requires Inv(f, s) && Orderly(s) && Legal(f, s, steps)
    ensures Orderly(Run(f, s, steps))
    decreases |steps|
  {
    if steps == [] {
    } else {
      StepKeeps(f, s, steps[0]);
      StepIsOrderly(f, s, steps[0]);
      RunIsOrderly(f, Apply(f, s, steps[0]), steps[1..]);
    }
  }

  /** Whatever happens between the answer of the database and the rest of a load, the page then holds what the
      database held at the answer, whatever it held before. */
  lemma {:induction false} LoadDelivers(f: Platform, s: State, load: nat, steps: seq<Step>)
    requires Orderly(s) && Inv(f, s) && Enabled(s, PageRead(load))
    requires Legal(f, Apply(f, s, PageRead(load)), steps) && PageSet(load) !in steps
    ensures var t := Run(f, Apply(f, s, PageRead(load)), steps);
      Enabled(t, PageSet(load)) &&
      Apply(f, t, PageSet(load)).page.bundle == if s.db.Some? then s.db else t.page.bundle
  {
    StepKeeps(f, s, PageRead(load));
    StepIsOrderly(f, s, PageRead(load));
    LoadWaits(f, Apply(f, s, PageRead(load)), load, s.db, steps);
  }

  lemma {:induction false} LoadWaits(f: Platform, s: State, load: nat, found: Option<JsBundle>, steps: seq<Step>)
    requires Orderly(s) && Inv(f, s) && Legal(f, s, steps) && PageSet(load) !in steps
    requires load in s.page.loads && s.page.loads[load] == Got(found)
    ensures load in Run(f, s, steps).page.loads && Run(f, s, steps).page.loads[load] == Got(found)
    decreases |steps|
  {
    if steps == [] {
    } else {
      StepKeeps(f, s, steps[0]);
      StepIsOrderly(f, s, steps[0]);
      assert steps[0] in steps && forall x :: x in steps[1..] ==> x in steps;
      LoadStays(f, s, load, steps[0]);
      LoadWaits(f, Apply(f, s, steps[0]), load, found, steps[1..]);
    }
  }

  lemma {:induction false} LoadStays(f: Platform, s: State, load: nat, step: Step)
    requires Orderly(s) && Enabled(s, step) && step != PageSet(load) && load in s.page.loads && s.page.loads[load].Got?
    ensures load in Apply(f, s, step).page.loads && Apply(f, s, step).page.loads[load] == s.page.loads[load]
  {
  }

  /** A page that has closed its channel hears nothing until it opens one again. */
  lemma {:induction false} DestroyedIsDeaf(f: Platform, s: State, steps: seq<Step>)
    requires Inv(f, s) && Orderly(s) && Legal(f, Apply(f, s, PageDestroy), steps) && PageListen !in steps
    ensures Run(f, Apply(f, s, PageDestroy), steps).page.inbox == []
  {
    StepKeeps(f, s, PageDestroy);
    StepIsOrderly(f, s, PageDestroy);
    StaysDeaf(f, Apply(f, s, PageDestroy), steps);
  }

  lemma {:induction false} StaysDeaf(f: Platform, s: State, steps: seq<Step>)
    requires Inv(f, s) && Orderly(s) && Legal(f, s, steps) && PageListen !in steps && !s.page.listening
    ensures !Run(f, s, steps).page.listening && Run(f, s, steps).page.inbox == []
    decreases |steps|
  {
    if steps == [] {
    } else {
      StepKeeps(f, s, steps[0]);
      StepIsOrderly(f, s, steps[0]);
      assert steps[0] in steps && forall x :: x in steps[1..] ==> x in steps;
      StaysDeaf(f, Apply(f, s, steps[0]), steps[1..]);
    }
  }

  /** In every state that a run can reach: if a page that listens has an update first in its inbox, then it
      receives it, reads and settles, and after that holds the stored bundle, whatever it held before. The
      same goes for a page that starts. */
  lemma {:induction false} UpdateReachesPage(f: Platform, before: seq<Step>, first: Step)
    requires Legal(f, START, before)
    requires var s := Run(f, START, before);
      first == PageInit || (first == PageReceive && s.page.inbox != [] && s.page.inbox[0].BundleUpdated?)
    ensures var s := Run(f, START, before);
      var steps := LoadSteps(first, s.page.asked);
      && Legal(f, s, steps) && Run(f, s, steps).db == s.db
      && Run(f, s, steps).page.bundle == (if s.db.Some? then s.db else s.page.bundle)
      && (first == PageReceive ==> s.db.Some? && s.page.listening && Run(f, s, steps).page.inbox == s.page.inbox[1..])
  {
    var s := Run(f, START, before);
    RunKeeps(f, START, before);
    RunIsOrderly(f, START, before);
    if first == PageReceive { assert s.page.inbox[0] in s.page.inbox; }
    Reloads(f, s, first);
  }

  // ----- how a sync ends

  /** The end of a sync, with its four ways, and the death of the worker. */
  lemma {:induction false} SyncEnds(f: Platform, s: State, id: nat, good: bool)
    requires Inv(f, s) && Enabled(s, StateSettled(id, good))
    ensures var p := s.worker.running[id];
      var s' := Apply(f, s, StateSettled(id, good));
      && s'.db == s.db
      && (p.SavingState? && !good ==> s'.sent == s.sent && s'.worker.flag && s'.worker.running == map[id := Failing(AtState)])
      && (!(p.SavingState? && !good) ==> !s'.worker.flag && s'.worker.running == map[])
      && (p.SavingState? && good ==> s'.sent == s.sent + [BundleUpdated(p.bundle.expiresAt)])
      && (p.Failing? ==> s'.sent == s.sent + if good then [SyncFailed(p.why)] else [])
    ensures var killed := Apply(f, s, Kill);
      !killed.worker.flag && killed.worker.running == map[] && killed.db == s.db && killed.sent == s.sent
  {
    assert s.worker.running == map[id := s.worker.running[id]];
    assert s.worker.running - {id} == map[];
  }
}
