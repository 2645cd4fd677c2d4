/** Runs of the synchronisation, step by step: a sync that takes a document in, one that stores it, and a page
    that loads what is stored. Each from any state. */
module SyncRuns {
  import opened Cbor
  import opened JsBundle
  import opened SyncProtocol

  lemma {:induction false} OneMore(f: Platform, s: State, step: Step, rest: seq<Step>, next: State, end: State)
    requires Enabled(s, step) && Apply(f, s, step) == next
    requires Legal(f, next, rest) && Run(f, next, rest) == end
    ensures Legal(f, s, [step] + rest) && Run(f, s, [step] + rest) == end
  {
    assert ([step] + rest)[1..] == rest;
  }

  lemma {:induction false} RunAppend(f: Platform, s: State, a: seq<Step>, b: seq<Step>)
    requires Legal(f, s, a) && Legal(f, Run(f, s, a), b)
    ensures Legal(f, s, a + b) && Run(f, s, a + b) == Run(f, Run(f, s, a), b)
    decreases |a|
  {
    if a == [] {
      assert a + b == b;
    } else {
      RunAppend(f, Apply(f, s, a[0]), a[1..], b);
      assert (a + b)[1..] == a[1..] + b;
    }
  }

  // ----- a sync

  /** A sync that reads the document `raw` at second `now` and checks it. */
  function Intake(id: nat, raw: JsBundle, now: int): seq<Step> {
    [Call, Fetched(id, true), BodyRead(id, Ok(raw), now), Checked(id)]
  }

  function OnlySync(s: State, id: nat, p: Phase): State { s.(worker := Worker(true, map[id := p], id + 1)) }

  /** If validation turns `raw` into `b`, the sync is about to save `b`. */
  lemma {:induction false} TakesIn(f: Platform, s: State, raw: JsBundle, b: JsBundle, now: int)
    requires Guarded(s.worker) && !s.worker.flag && Validated(f, raw, now) == Ok(b)
    ensures Legal(f, s, Intake(s.worker.started, raw, now))
    ensures Run(f, s, Intake(s.worker.started, raw, now)) == OnlySync(s, s.worker.started, Saving(b, false))
  {
    var id := s.worker.started;
    var s1, s2 := OnlySync(s, id, Fetching), OnlySync(s, id, Reading);
    var s3, s4 := OnlySync(s, id, Validating(raw, now)), OnlySync(s, id, Saving(b, false));
    assert s.worker.running == map[];
    assert Legal(f, s4, []) && Run(f, s4, []) == s4;
    OneMore(f, s3, Checked(id), [], s4, s4);
    OneMore(f, s2, BodyRead(id, Ok(raw), now), [Checked(id)] + [], s3, s4);
    OneMore(f, s1, Fetched(id, true), [BodyRead(id, Ok(raw), now)] + ([Checked(id)] + []), s2, s4);
    OneMore(f, s, Call, [Fetched(id, true)] + ([BodyRead(id, Ok(raw), now)] + ([Checked(id)] + [])), s1, s4);
    assert [Call] + ([Fetched(id, true)] + ([BodyRead(id, Ok(raw), now)] + ([Checked(id)] + []))) ==
      Intake(id, raw, now);
  }

  /** And saves it, with its own state. */
  function Storing(id: nat): seq<Step> { [Written(id), PutSettled(id, true), StateSettled(id, true)] }

  /** The bundle is stored, and whoever listens is told. */
  function Synced(s: State, id: nat, b: JsBundle): State {
    Posted(s.(db := Some(b), worker := Worker(false, map[], id + 1)), BundleUpdated(b.expiresAt))
  }

  lemma {:induction false} Stores(f: Platform, s: State, id: nat, b: JsBundle)
    ensures Legal(f, OnlySync(s, id, Saving(b, false)), Storing(id))
    ensures Run(f, OnlySync(s, id, Saving(b, false)), Storing(id)) == Synced(s, id, b)
  {
    var end, stored := Synced(s, id, b), s.(db := Some(b));
    var s4, s5 := OnlySync(s, id, Saving(b, false)), OnlySync(stored, id, Saving(b, true));
    var s6 := OnlySync(stored, id, SavingState(b));
    assert Legal(f, end, []) && Run(f, end, []) == end;
    assert s6.worker.running - {id} == map[];
    OneMore(f, s6, StateSettled(id, true), [], end, end);
    OneMore(f, s5, PutSettled(id, true), [StateSettled(id, true)] + [], s6, end);
    OneMore(f, s4, Written(id), [PutSettled(id, true)] + ([StateSettled(id, true)] + []), s5, end);
    assert [Written(id)] + ([PutSettled(id, true)] + ([StateSettled(id, true)] + [])) == Storing(id);
  }

  /** A sync that goes well, called in any state in which none is under way. */
  lemma {:induction false} Syncs(f: Platform, s: State, raw: JsBundle, b: JsBundle, now: int)
    requires Guarded(s.worker) && !s.worker.flag && Validated(f, raw, now) == Ok(b)
    ensures var id := s.worker.started;
      Legal(f, s, Intake(id, raw, now) + Storing(id)) && Run(f, s, Intake(id, raw, now) + Storing(id)) == Synced(s, id, b)
  {
    var id := s.worker.started;
    TakesIn(f, s, raw, b, now);
    Stores(f, s, id, b);
    RunAppend(f, s, Intake(id, raw, now), Storing(id));
  }

  // ----- a page

  /** A page that starts, or takes up an update: it asks the database, is answered, and goes on. */
  function LoadSteps(first: Step, load: nat): seq<Step> { [first, PageRead(load), PageSet(load)] }

  lemma {:induction false} Reloads(f: Platform, s: State, first: Step)
    requires first == PageInit || (first == PageReceive && s.page.inbox != [] && s.page.inbox[0].BundleUpdated?)
    ensures Legal(f, s, LoadSteps(first, s.page.asked))
    ensures var end := Run(f, s, LoadSteps(first, s.page.asked));
      && end.db == s.db && end.page.bundle == (if s.db.Some? then s.db else s.page.bundle)
      && (first == PageReceive ==> end.page.inbox == s.page.inbox[1..])
  {
    var load := s.page.asked;
    var s1 := Apply(f, s, first);
    var s2 := Apply(f, s1, PageRead(load));
    var s3 := Apply(f, s2, PageSet(load));
    assert Legal(f, s3, []) && Run(f, s3, []) == s3;
    OneMore(f, s2, PageSet(load), [], s3, s3);
    OneMore(f, s1, PageRead(load), [PageSet(load)] + [], s2, s3);
    OneMore(f, s, first, [PageRead(load)] + ([PageSet(load)] + []), s1, s3);
    assert LoadSteps(first, load) == [first] + ([PageRead(load)] + ([PageSet(load)] + []));
  }
}
