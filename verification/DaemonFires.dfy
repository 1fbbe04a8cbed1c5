/** The fires of a job only ever move forward, over restarts too, and a one-time job fires once. */
module DaemonFires {
  import opened Outcomes
  import opened Jobs
  import opened DaemonSteps
  import opened DaemonSafety

  predicate Rises(fires: seq<Instant>) {
    forall a, b :: 0 <= a < b < |fires| ==> fires[a] < fires[b]
  }

  /** The state remembers the last fire: exactly, or to the second once it went through the file. */
  ghost predicate Remembers(d: DaemonState, id: string, restarts: bool)
    requires id in d.fires
  {
    && d.fires[id] != [] && Rises(d.fires[id])
    && var last, kept := d.fires[id][|d.fires[id]| - 1], StateOf(d.states, id).lastFire;
       kept.Some? && ToSecond(last) <= kept.value <= last && (!restarts ==> kept.value == last)
  }

  predicate IsNextBeyond(d: DaemonState, job: Job)
    requires job.id in d.fires ==> d.fires[job.id] != []
  {
    job.id in d.fires && job.nextFire.Some? ==> job.nextFire.value > d.fires[job.id][|d.fires[job.id]| - 1]
  }

  predicate IsWhole(schedule: Option<JobSchedule>) {
    schedule.Some? && schedule.value.schedule.Once? ==> IsWholeSecond(schedule.value.schedule.instant)
  }

  /** The fires of every job rise, and what is planned lies beyond them. */
  ghost predicate Recorded(d: DaemonState, restarts: bool) {
    && (forall id :: id in d.fires ==> Remembers(d, id, restarts))
    && forall i :: 0 <= i < |d.jobs| ==> IsNextBeyond(d, d.jobs[i]) && (restarts ==> IsWhole(d.jobs[i].schedule))
  }

  ghost predicate HoldsWhole(files: Files) {
    forall path :: files.load(path).Manifest? ==>
      forall i :: 0 <= i < |files.load(path).schedules| ==> IsWhole(Some(files.load(path).schedules[i]))
  }

  /** Either nothing restarts the daemon, or one-time schedules name whole seconds. */
  ghost predicate Within(step: Step, restarts: bool) {
    match step
    case Restart(_, files, _, _, _) => restarts && HoldsWhole(files)
    case Watch(_, files, _) => restarts ==> HoldsWhole(files)
    case Reread(_, files, _) => restarts ==> HoldsWhole(files)
    case _ => true
  }

  // ----- planning -----

  lemma WholeSecondsPass(t: Instant, last: Instant)
    requires IsWholeSecond(t) && t > ToSecond(last)
    ensures t > last
  {
  }

  lemma PlanIsBeyond(calendar: Calendar, job: Job, now: Instant, late: bool, last: Instant)
    requires Advances(calendar) && job.state.lastFire.Some? && ToSecond(last) <= job.state.lastFire.value <= last
    requires job.state.lastFire.value == last || IsWhole(job.schedule)
    ensures Plan(calendar, job, now, late).nextFire.Some? ==> Plan(calendar, job, now, late).nextFire.value > last
  {
    PlanIsAhead(calendar, job, now, late);
    if IsReady(job) && job.state.lastFire.value != last {
      var next := NextAfter(calendar, job.schedule.value.schedule, job.state.lastFire.value);
      if next.Some? {
        WholeSecondsPass(next.value, last);
      }
    }
  }

  lemma PlanStaysBeyond(calendar: Calendar, d: DaemonState, job: Job, now: Instant, late: bool, restarts: bool)
    requires Advances(calendar) && IsSynced(d, job)
    requires job.id in d.fires ==> Remembers(d, job.id, restarts)
    requires restarts ==> IsWhole(job.schedule)
    ensures IsNextBeyond(d, Plan(calendar, job, now, late))
  {
    if job.id in d.fires {
      PlanIsBeyond(calendar, job, now, late, d.fires[job.id][|d.fires[job.id]| - 1]);
    }
  }

  // ----- a tick -----

  /** A fire adds itself to the job's fires and becomes its last one. */
  lemma FireEffect(calendar: Calendar, d: DaemonState, i: nat, now: Instant)
    requires Sound(d) && Advances(calendar) && i < |d.jobs|
    ensures var e, job, fire := Fire(calendar, d, i, now), d.jobs[i], FireTime(d.jobs[i], now);
            && Sound(e) && ChangesOne(d, e, i)
            && e.fires == d.fires[job.id := FiresOf(d.fires, job.id) + [fire]]
            && e.jobs[i].state.lastFire == Some(fire)
  {
    var fired := Fired(d, i, now);
    FireChanges(calendar, d, i, now);
    FiredJob(d, i, now);
    PlanIsAhead(calendar, fired.jobs[i], now, false);
    assert Fire(calendar, d, i, now) == PlanJob(calendar, SaveState(fired, i), i, now, false);
  }

  lemma RisesOneMore(fires: seq<Instant>, fire: Instant)
    requires Rises(fires) && (fires != [] ==> fires[|fires| - 1] < fire)
    ensures Rises(fires + [fire]) && fires + [fire] != [] && (fires + [fire])[|fires|] == fire
  {
    forall a, b | 0 <= a < b < |fires + [fire]| ensures (fires + [fire])[a] < (fires + [fire])[b] {
      if b == |fires| && a < |fires| - 1 {
        assert fires[a] < fires[|fires| - 1];
      }
    }
  }

  lemma FiringIsRemembered(d: DaemonState, e: DaemonState, i: nat, fire: Instant, restarts: bool)
    requires Sound(e) && Recorded(d, restarts) && ChangesOne(d, e, i)
    requires d.jobs[i].nextFire == Some(fire) && e.jobs[i].state.lastFire == Some(fire)
    requires e.fires == d.fires[d.jobs[i].id := FiresOf(d.fires, d.jobs[i].id) + [fire]]
    ensures Remembers(e, d.jobs[i].id, restarts)
  {
    var id := d.jobs[i].id;
    assert IsNextBeyond(d, d.jobs[i]);
    if id in d.fires {
      assert Remembers(d, id, restarts);
    }
    RisesOneMore(FiresOf(d.fires, id), fire);
    assert StateOf(e.states, id) == e.jobs[i].state;
  }

  lemma FireIsRemembered(d: DaemonState, e: DaemonState, i: nat, fire: Instant, restarts: bool)
    requires Sound(e) && Recorded(d, restarts) && ChangesOne(d, e, i)
    requires d.jobs[i].nextFire == Some(fire) && e.jobs[i].state.lastFire == Some(fire)
    requires e.fires == d.fires[d.jobs[i].id := FiresOf(d.fires, d.jobs[i].id) + [fire]]
    ensures forall id :: id in e.fires ==> Remembers(e, id, restarts)
  {
    FiringIsRemembered(d, e, i, fire, restarts);
    forall id | id in e.fires && id != d.jobs[i].id ensures Remembers(e, id, restarts) {
      assert Remembers(d, id, restarts);
      assert StateOf(e.states, id) == StateOf(d.states, id);
    }
  }

  lemma FireAdvances(calendar: Calendar, d: DaemonState, i: nat, now: Instant, restarts: bool)
    requires Sound(d) && Recorded(d, restarts) && Advances(calendar) && i < |d.jobs| && d.jobs[i].nextFire.Some?
    ensures Recorded(Fire(calendar, d, i, now), restarts)
  {
    var e := Fire(calendar, d, i, now);
    FireEffect(calendar, d, i, now);
    FireIsRemembered(d, e, i, d.jobs[i].nextFire.value, restarts);
    forall k | 0 <= k < |e.jobs| ensures IsNextBeyond(e, e.jobs[k]) && (restarts ==> IsWhole(e.jobs[k].schedule)) {
      FireStaysBeyond(d, e, i, d.jobs[i].nextFire.value, restarts, k);
    }
  }

  lemma FireStaysBeyond(d: DaemonState, e: DaemonState, i: nat, fire: Instant, restarts: bool, k: nat)
    requires Sound(d) && Sound(e) && Recorded(d, restarts) && (forall id :: id in e.fires ==> e.fires[id] != []) && ChangesOne(d, e, i) && k < |d.jobs|
    requires e.jobs[i].state.lastFire == Some(fire)
    requires e.fires == d.fires[d.jobs[i].id := FiresOf(d.fires, d.jobs[i].id) + [fire]]
    ensures IsNextBeyond(e, e.jobs[k]) && (restarts ==> IsWhole(e.jobs[k].schedule))
  {
    assert IsNextBeyond(d, d.jobs[k]);
    if k == i {
      assert IsKept(e, e.jobs[i]);
    } else {
      assert d.jobs[k].id != d.jobs[i].id;
    }
  }

  lemma {:induction false} FireEachAdvances(calendar: Calendar, d: DaemonState, due: seq<nat>, now: Instant, restarts: bool)
    requires Sound(d) && Recorded(d, restarts) && Advances(calendar)
    requires forall k :: 0 <= k < |due| ==> due[k] < |d.jobs| && d.jobs[due[k]].nextFire.Some?
    requires forall a, b :: 0 <= a < b < |due| ==> due[a] < due[b]
    ensures Recorded(FireEach(calendar, d, due, now), restarts)
    decreases |due|
  {
    if due != [] {
      var e := Fire(calendar, d, due[0], now);
      FireChanges(calendar, d, due[0], now);
      FireAdvances(calendar, d, due[0], now, restarts);
      FireEachAdvances(calendar, e, due[1..], now, restarts);
    }
  }

  // ----- every other step -----

  /** A step that fires nothing keeps the record when its planned fires lie beyond it. */
  lemma RecordStays(d: DaemonState, e: DaemonState, restarts: bool)
    requires Recorded(d, restarts)
    requires forall id :: id in e.fires ==> id in d.fires && e.fires[id] == d.fires[id] && StateOf(e.states, id).lastFire == StateOf(d.states, id).lastFire
    requires forall i :: 0 <= i < |e.jobs| ==> IsNextBeyond(d, e.jobs[i]) && (restarts ==> IsWhole(e.jobs[i].schedule))
    ensures Recorded(e, restarts)
  {
    forall id | id in e.fires ensures Remembers(e, id, restarts) {
      assert Remembers(d, id, restarts);
    }
  }

  lemma HeldIsBeyond(calendar: Calendar, d: DaemonState, i: nat, paused: bool, now: Instant, restarts: bool)
    requires Sound(d) && Recorded(d, restarts) && Advances(calendar) && i < |d.jobs|
    ensures var held := d.jobs[i].(state := d.jobs[i].state.(paused := paused));
            IsNextBeyond(d, Plan(calendar, held, now, false)) && Plan(calendar, held, now, false).schedule == d.jobs[i].schedule
  {
    var job := d.jobs[i];
    var held := job.(state := job.state.(paused := paused));
    assert IsKept(d, job) && IsNextBeyond(d, job);
    PlanIsAhead(calendar, held, now, false);
    if job.id in d.fires {
      assert Remembers(d, job.id, restarts);
      PlanIsBeyond(calendar, held, now, false, d.fires[job.id][|d.fires[job.id]| - 1]);
    }
  }

  lemma HoldAdvances(calendar: Calendar, d: DaemonState, id: string, paused: bool, now: Instant, restarts: bool)
    requires Sound(d) && Recorded(d, restarts) && Advances(calendar)
    ensures Recorded(DaemonSteps.Hold(calendar, d, id, paused, now).0, restarts)
  {
    var found := Find(d.jobs, id);
    if found.Some? {
      HeldIsBeyond(calendar, d, found.value, paused, now, restarts);
      assert IsKept(d, d.jobs[found.value]);
      forall k | 0 <= k < |d.jobs| ensures IsNextBeyond(d, d.jobs[k]) && (restarts ==> IsWhole(d.jobs[k].schedule)) {}
      RecordStays(d, DaemonSteps.Hold(calendar, d, id, paused, now).0, restarts);
    }
  }

  lemma EndAdvances(d: DaemonState, id: string, outcome: RunOutcome, restarts: bool)
    requires Sound(d) && Recorded(d, restarts)
    ensures Recorded(NoteEnd(d, id, outcome), restarts)
  {
    var found := Find(d.jobs, id);
    if found.Some? {
      assert IsKept(d, d.jobs[found.value]);
      assert IsNextBeyond(d, d.jobs[found.value]);
    }
    RecordStays(d, NoteEnd(d, id, outcome), restarts);
  }

  lemma {:induction false} StartWaitingAdvances(d: DaemonState, restarts: bool)
    requires Recorded(d, restarts)
    ensures Recorded(StartWaiting(d), restarts)
    decreases d.limit - d.running
  {
    if d.running < d.limit && FirstWaiting(d.jobs, 0).Some? {
      var i := FirstWaiting(d.jobs, 0).value;
      assert IsNextBeyond(d, d.jobs[i]);
      RecordStays(d, Start(d, i), restarts);
      StartWaitingAdvances(Start(d, i), restarts);
    }
  }

  lemma JobsOfAreWhole(watched: Watched, files: Files, states: States)
    requires HoldsWhole(files)
    ensures forall i :: 0 <= i < |JobsOf(watched, files, states)| ==> IsWhole(JobsOf(watched, files, states)[i].schedule)
  {
  }

  lemma {:induction false} BuildIsWhole(registry: seq<Watched>, files: Files, states: States)
    requires HoldsWhole(files)
    ensures forall i :: 0 <= i < |Build(registry, files, states)| ==> IsWhole(Build(registry, files, states)[i].schedule)
  {
    if registry != [] {
      JobsOfAreWhole(registry[0], files, states);
      BuildIsWhole(registry[1..], files, states);
    }
  }

  lemma CarriedIsBeyond(calendar: Calendar, d: DaemonState, job: Job, now: Instant, restarts: bool)
    requires Recorded(d, restarts) && Advances(calendar)
    requires IsSynced(d, job) && job.nextFire.None? && (restarts ==> IsWhole(job.schedule))
    ensures IsNextBeyond(d, Replanned(calendar, Carried(d.jobs, job), now))
    ensures Replanned(calendar, Carried(d.jobs, job), now).schedule == job.schedule
  {
    var found, carried := Find(d.jobs, job.id), Carried(d.jobs, job);
    if found.Some? {
      assert IsNextBeyond(d, d.jobs[found.value]);
    }
    assert carried.id == job.id && carried.schedule == job.schedule && carried.state == job.state;
    assert job.id in d.fires ==> Remembers(d, job.id, restarts);
    PlanStaysBeyond(calendar, d, carried, now, false, restarts);
    PlanIsAhead(calendar, carried, now, false);
  }

  lemma InstallAdvances(calendar: Calendar, d: DaemonState, registry: seq<Watched>, path: string, latest: seq<Job>, now: Instant, restarts: bool)
    requires Recorded(d, restarts) && Advances(calendar)
    requires forall i :: 0 <= i < |latest| ==> IsSynced(d, latest[i]) && latest[i].nextFire.None? && (restarts ==> IsWhole(latest[i].schedule))
    ensures Recorded(Install(calendar, d.(registry := registry), path, latest, now), restarts)
  {
    JobsInAdvance(d, Manifests(d.jobs) - {path}, restarts);
    forall i | 0 <= i < |latest|
      ensures IsNextBeyond(d, Replanned(calendar, Carried(d.jobs, latest[i]), now))
      ensures Replanned(calendar, Carried(d.jobs, latest[i]), now).schedule == latest[i].schedule
    {
      CarriedIsBeyond(calendar, d, latest[i], now, restarts);
    }
    RecordStays(d, Install(calendar, d.(registry := registry), path, latest, now), restarts);
  }

  lemma RemoveAdvances(d: DaemonState, path: string, restarts: bool)
    requires Recorded(d, restarts)
    ensures Recorded(DaemonSteps.Remove(d, path).0, restarts)
  {
    JobsInAdvance(d, Manifests(d.jobs) - {path}, restarts);
    RecordStays(d, DaemonSteps.Remove(d, path).0, restarts);
  }

  lemma JobsInAdvance(d: DaemonState, paths: set<string>, restarts: bool)
    requires Recorded(d, restarts)
    ensures forall i :: 0 <= i < |JobsIn(d.jobs, paths)| ==>
      IsNextBeyond(d, JobsIn(d.jobs, paths)[i]) && (restarts ==> IsWhole(JobsIn(d.jobs, paths)[i].schedule))
  {
    var kept := JobsIn(d.jobs, paths);
    forall i | 0 <= i < |kept| ensures IsNextBeyond(d, kept[i]) && (restarts ==> IsWhole(kept[i].schedule)) {
      assert kept[i] in kept;
      var k :| 0 <= k < |d.jobs| && d.jobs[k] == kept[i];
      assert IsNextBeyond(d, d.jobs[k]);
    }
  }

  /** What a restart finds of a last fire: the same, cut to the second. */
  lemma RestartReads(d: DaemonState, saved: States, id: string)
    requires d.saved == Written(d.states) && SameButPaused(d.saved, saved)
    ensures StateOf(saved, id).lastFire == WrittenState(StateOf(d.states, id)).lastFire
  {
    assert StateOf(saved, id).(paused := false) == StateOf(d.saved, id).(paused := false);
    assert StateOf(d.saved, id) == WrittenState(StateOf(d.states, id));
  }

  lemma RestartRemembers(d: DaemonState, e: DaemonState, id: string)
    requires d.saved == Written(d.states) && SameButPaused(d.saved, e.states) && e.fires == d.fires
    requires id in d.fires && Remembers(d, id, true)
    ensures Remembers(e, id, true)
  {
    RestartReads(d, e.states, id);
  }

  /** A restart reads the last fire to the second, and still plans beyond it. */
  lemma OpenAdvances(calendar: Calendar, d: DaemonState, step: Step)
    requires Sound(d) && Recorded(d, true) && Advances(calendar)
    requires step.Restart? && Legal(d, step) && Within(step, true)
    ensures Recorded(Apply(calendar, d, step), true)
  {
    var e := Apply(calendar, d, step);
    var jobs := Build(step.registry, step.files, step.saved);
    BuildReads(step.registry, step.files, step.saved);
    BuildIsWhole(step.registry, step.files, step.saved);
    forall id | id in e.fires ensures Remembers(e, id, true) {
      RestartRemembers(d, e, id);
    }
    forall i | 0 <= i < |jobs| ensures IsNextBeyond(e, e.jobs[i]) && IsWhole(e.jobs[i].schedule) {
      assert jobs[i] in jobs;
      PlanStaysBeyond(calendar, e, jobs[i], step.now, true, true);
      PlanIsAhead(calendar, jobs[i], step.now, true);
    }
  }

  /** A daemon that opens with nothing on record starts the record. */
  lemma OpenIsRecorded(calendar: Calendar, registry: seq<Watched>, files: Files, saved: States, limit: nat, now: Instant, restarts: bool)
    requires restarts ==> HoldsWhole(files)
    ensures Recorded(Open(calendar, registry, files, saved, limit, map[], now), restarts)
  {
    if restarts {
      BuildIsWhole(registry, files, saved);
      var e, jobs := Open(calendar, registry, files, saved, limit, map[], now), Build(registry, files, saved);
      forall i | 0 <= i < |jobs| ensures IsWhole(e.jobs[i].schedule) {
        assert e.jobs[i] == Plan(calendar, jobs[i], now, true);
        assert IsWhole(jobs[i].schedule);
      }
    }
  }

  lemma TickAdvances(calendar: Calendar, d: DaemonState, now: Instant, restarts: bool)
    requires Sound(d) && Recorded(d, restarts) && Advances(calendar)
    ensures Recorded(FireDue(calendar, d, now), restarts)
  {
    var due := Due(d.jobs, now, 0);
    assert forall k :: 0 <= k < |due| ==> due[k] in due;
    FireEachAdvances(calendar, d, due, now, restarts);
  }

  lemma AddAdvances(calendar: Calendar, d: DaemonState, watched: Watched, files: Files, now: Instant, restarts: bool)
    requires Recorded(d, restarts) && Advances(calendar) && (restarts ==> HoldsWhole(files))
    ensures Recorded(DaemonSteps.Add(calendar, d, watched, files, now).0, restarts)
  {
    var latest := JobsOf(watched, files, d.states);
    if restarts { JobsOfAreWhole(watched, files, d.states); }
    InstallAdvances(calendar, d, WithoutPath(d.registry, watched.path) + [watched], watched.path, latest, now, restarts);
  }

  lemma RereadAdvances(calendar: Calendar, d: DaemonState, watched: Watched, files: Files, now: Instant, restarts: bool)
    requires Recorded(d, restarts) && Advances(calendar) && (restarts ==> HoldsWhole(files))
    ensures Recorded(DaemonSteps.Reread(calendar, d, watched, files, now), restarts)
  {
    if restarts { JobsOfAreWhole(watched, files, d.states); }
    InstallAdvances(calendar, d, d.registry, watched.path, JobsOf(watched, files, d.states), now, restarts);
    assert d.(registry := d.registry) == d;
  }

  lemma TriggerAdvances(d: DaemonState, id: string, restarts: bool)
    requires Recorded(d, restarts)
    ensures Recorded(DaemonSteps.Trigger(d, id).0, restarts)
  {
    if TriggerAnswer(d, id).Done? {
      var i := Find(d.jobs, id).value;
      assert IsNextBeyond(d, d.jobs[i]);
      RecordStays(d, Start(d, i), restarts);
    }
  }

  lemma StepAdvances(calendar: Calendar, d: DaemonState, step: Step, restarts: bool)
    requires Sound(d) && Recorded(d, restarts) && Advances(calendar) && Legal(d, step) && Within(step, restarts)
    ensures Recorded(Apply(calendar, d, step), restarts)
  {
    match step
    case Tick(now) => TickAdvances(calendar, d, now, restarts);
    case Watch(watched, files, now) => AddAdvances(calendar, d, watched, files, now, restarts);
    case Unwatch(path) => RemoveAdvances(d, path, restarts);
    case Pause(id, now) => HoldAdvances(calendar, d, id, true, now, restarts);
    case Resume(id, now) => HoldAdvances(calendar, d, id, false, now, restarts);
    case Trigger(id) => TriggerAdvances(d, id, restarts);
    case Relist(registry) =>
      JobsInAdvance(d, Paths(registry), restarts);
      RecordStays(d, DaemonSteps.Relist(d, registry), restarts);
    case Reread(watched, files, now) => RereadAdvances(calendar, d, watched, files, now, restarts);
    case End(id, outcome) =>
      EndAdvances(d, id, outcome, restarts);
      StartWaitingAdvances(NoteEnd(d, id, outcome), restarts);
    case Stop => RecordStays(d, BeginStopping(d), restarts);
    case Signal => RecordStays(d, DaemonSteps.Signal(d), restarts);
    case Restart(_, _, _, _, _) => OpenAdvances(calendar, d, step);
  }

  /**
   * Over any history the fires of every job strictly rise, however the clock jumps, as long as its
   * state is kept; over restarts too when one-time schedules name whole seconds.
   */
  lemma {:induction false} FiresAdvance(calendar: Calendar, trace: seq<DaemonState>, steps: seq<Step>, restarts: bool, k: nat)
    requires Advances(calendar) && IsHistory(calendar, trace, steps) && k < |trace|
    requires Sound(trace[0]) && Recorded(trace[0], restarts)
    requires forall n :: 0 <= n < |steps| ==> Within(steps[n], restarts)
    ensures Recorded(trace[k], restarts)
    ensures forall id :: id in trace[k].fires ==> Rises(trace[k].fires[id])
  {
    if k > 0 {
      FiresAdvance(calendar, trace, steps, restarts, k - 1);
      EveryStateIsSound(calendar, trace, steps, k - 1);
      StepAdvances(calendar, trace[k - 1], steps[k - 1], restarts);
    }
    forall id | id in trace[k].fires ensures Rises(trace[k].fires[id]) {
      assert Remembers(trace[k], id, restarts);
    }
  }

  // ----- one-time jobs -----

  /** The daemon watches a job that runs once, at `at`. */
  predicate WatchesOnce(d: DaemonState, id: string, at: Instant) {
    exists i :: 0 <= i < |d.jobs| && IsOnce(d.jobs[i], id, at)
  }

  predicate IsOnce(job: Job, id: string, at: Instant) {
    job.id == id && job.schedule.Some? && job.schedule.value.schedule == Once(at)
  }

  /** One while the job may still fire, zero once its last fire reached `at`. */
  function Remaining(d: DaemonState, id: string, at: Instant): nat {
    var last := StateOf(d.states, id).lastFire;
    if last.Some? && last.value >= at then 0 else 1
  }

  function Budget(d: DaemonState, id: string, at: Instant): nat {
    |FiresOf(d.fires, id)| + Remaining(d, id, at)
  }

  lemma FireSpends(calendar: Calendar, d: DaemonState, i: nat, now: Instant, id: string, at: Instant)
    requires Sound(d) && Advances(calendar) && WatchesOnce(d, id, at) && i < |d.jobs| && d.jobs[i].nextFire.Some?
    ensures WatchesOnce(Fire(calendar, d, i, now), id, at)
    ensures Budget(Fire(calendar, d, i, now), id, at) <= Budget(d, id, at)
  {
    FireEffect(calendar, d, i, now);
    FiringSpends(d, Fire(calendar, d, i, now), i, d.jobs[i].nextFire.value, id, at);
  }

  lemma FiringSpends(d: DaemonState, e: DaemonState, i: nat, fire: Instant, id: string, at: Instant)
    requires Sound(d) && Sound(e) && WatchesOnce(d, id, at) && i < |d.jobs| && d.jobs[i].nextFire == Some(fire) && ChangesOne(d, e, i)
    requires e.fires == d.fires[d.jobs[i].id := FiresOf(d.fires, d.jobs[i].id) + [fire]] && e.jobs[i].state.lastFire == Some(fire)
    ensures WatchesOnce(e, id, at) && Budget(e, id, at) <= Budget(d, id, at)
  {
    var own :| 0 <= own < |d.jobs| && IsOnce(d.jobs[own], id, at);
    assert IsKept(d, d.jobs[own]);
    assert IsOnce(e.jobs[own], id, at);
    if d.jobs[i].id == id {
      assert i == own;
      assert Remaining(d, id, at) == 1 && Remaining(e, id, at) == 0;
    }
  }

  lemma {:induction false} FireEachSpends(calendar: Calendar, d: DaemonState, due: seq<nat>, now: Instant, id: string, at: Instant)
    requires Sound(d) && Advances(calendar) && WatchesOnce(d, id, at)
    requires forall k :: 0 <= k < |due| ==> due[k] < |d.jobs| && d.jobs[due[k]].nextFire.Some?
    requires forall a, b :: 0 <= a < b < |due| ==> due[a] < due[b]
    ensures Budget(FireEach(calendar, d, due, now), id, at) <= Budget(d, id, at)
    decreases |due|
  {
    if due != [] {
      FireEffect(calendar, d, due[0], now);
      FireSpends(calendar, d, due[0], now, id, at);
      FireEachSpends(calendar, Fire(calendar, d, due[0], now), due[1..], now, id, at);
    }
  }

  lemma {:induction false} StartWaitingSpends(d: DaemonState, id: string, at: Instant)
    ensures Budget(StartWaiting(d), id, at) == Budget(d, id, at)
    decreases d.limit - d.running
  {
    if d.running < d.limit && FirstWaiting(d.jobs, 0).Some? {
      StartWaitingSpends(Start(d, FirstWaiting(d.jobs, 0).value), id, at);
    }
  }

  lemma OpenSpends(calendar: Calendar, d: DaemonState, step: Step, id: string, at: Instant)
    requires Sound(d) && IsWholeSecond(at) && step.Restart? && Legal(d, step)
    ensures Budget(Apply(calendar, d, step), id, at) <= Budget(d, id, at)
  {
    RestartReads(d, step.saved, id);
    if Remaining(d, id, at) == 0 {
      var last := StateOf(d.states, id).lastFire.value;
      if ToSecond(last) < at {
        WholeSecondsPass(at, last);
      }
    }
  }

  lemma EndSpends(d: DaemonState, ended: string, outcome: RunOutcome, id: string, at: Instant)
    requires Sound(d)
    ensures Budget(Finished(d, ended, outcome), id, at) == Budget(d, id, at)
  {
    var found := Find(d.jobs, ended);
    if found.Some? {
      assert IsKept(d, d.jobs[found.value]);
    }
    StartWaitingSpends(NoteEnd(d, ended, outcome), id, at);
  }

  lemma RemoveSpends(d: DaemonState, path: string, id: string, at: Instant)
    requires WatchesOnce(DaemonSteps.Remove(d, path).0, id, at)
    ensures Budget(DaemonSteps.Remove(d, path).0, id, at) == Budget(d, id, at)
  {
    var e := DaemonSteps.Remove(d, path).0;
    var i :| 0 <= i < |e.jobs| && IsOnce(e.jobs[i], id, at);
    assert id in Ids(e.jobs);
  }

  lemma TickSpends(calendar: Calendar, d: DaemonState, now: Instant, id: string, at: Instant)
    requires Sound(d) && Advances(calendar) && WatchesOnce(d, id, at)
    ensures Budget(FireDue(calendar, d, now), id, at) <= Budget(d, id, at)
  {
    var due := Due(d.jobs, now, 0);
    assert forall k :: 0 <= k < |due| ==> due[k] in due;
    FireEachSpends(calendar, d, due, now, id, at);
  }

  lemma StepSpends(calendar: Calendar, d: DaemonState, step: Step, id: string, at: Instant)
    requires Sound(d) && Advances(calendar) && Legal(d, step) && IsWholeSecond(at)
    requires WatchesOnce(d, id, at) && WatchesOnce(Apply(calendar, d, step), id, at)
    ensures Budget(Apply(calendar, d, step), id, at) <= Budget(d, id, at)
  {
    match step
    case Tick(now) => TickSpends(calendar, d, now, id, at);
    case Unwatch(path) => RemoveSpends(d, path, id, at);
    case Pause(held, now) => HoldSpends(calendar, d, held, true, now, id, at);
    case Resume(held, now) => HoldSpends(calendar, d, held, false, now, id, at);
    case End(ended, outcome) => EndSpends(d, ended, outcome, id, at);
    case Restart(_, _, _, _, _) => OpenSpends(calendar, d, step, id, at);
    case _ =>
  }

  lemma HoldSpends(calendar: Calendar, d: DaemonState, held: string, paused: bool, now: Instant, id: string, at: Instant)
    requires Sound(d)
    ensures Budget(DaemonSteps.Hold(calendar, d, held, paused, now).0, id, at) == Budget(d, id, at)
  {
    var found := Find(d.jobs, held);
    if found.Some? {
      assert IsKept(d, d.jobs[found.value]);
    }
  }

  /** A one-time job that stays watched and unchanged fires at most once, whatever happens meanwhile. */
  lemma {:induction false} OnceFiresOnce(calendar: Calendar, trace: seq<DaemonState>, steps: seq<Step>, id: string, at: Instant, k: nat)
    requires Advances(calendar) && IsHistory(calendar, trace, steps) && Sound(trace[0]) && IsWholeSecond(at) && k < |trace|
    requires forall n :: 0 <= n < |trace| ==> WatchesOnce(trace[n], id, at)
    ensures Budget(trace[k], id, at) <= Budget(trace[0], id, at)
    ensures |FiresOf(trace[k].fires, id)| <= |FiresOf(trace[0].fires, id)| + 1
  {
    if k > 0 {
      OnceFiresOnce(calendar, trace, steps, id, at, k - 1);
      EveryStateIsSound(calendar, trace, steps, k - 1);
      assert WatchesOnce(trace[k - 1], id, at) && WatchesOnce(trace[k], id, at);
      StepSpends(calendar, trace[k - 1], steps[k - 1], id, at);
    }
  }
}
