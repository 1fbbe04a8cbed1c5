/** The runs behind each job's flag, waiting fires that get their turn, and the two ways to hold a job. */
module DaemonRuns {
  import opened Outcomes
  import opened Jobs
  import opened DaemonSteps
  import opened DaemonSafety

  // ----- one run behind each flag -----

  /** The daemon holds the job, and its schedule never starts a second run beside the first. */
  predicate HoldsSerial(d: DaemonState, id: string) {
    exists i :: 0 <= i < |d.jobs| && IsSerial(d.jobs[i], id)
  }

  predicate IsSerial(job: Job, id: string) {
    job.id == id && !(job.schedule.Some? && job.schedule.value.onOverlap == Parallel)
  }

  /** One outstanding run when the flag is set, none otherwise. */
  predicate IsExact(d: DaemonState, id: string) {
    forall i :: 0 <= i < |d.jobs| && d.jobs[i].id == id ==> d.runs[id] == if d.jobs[i].running then 1 else 0
  }

  lemma StartIsExact(d: DaemonState, i: nat, id: string)
    requires DistinctIds(d.jobs) && IsExact(d, id) && i < |d.jobs| && !d.jobs[i].running
    ensures IsExact(Start(d, i), id)
  {
    var e := Start(d, i);
    forall k | 0 <= k < |e.jobs| && e.jobs[k].id == id ensures e.runs[id] == if e.jobs[k].running then 1 else 0 {
      assert d.jobs[k].id == id;
    }
  }

  /** A change to one job that keeps its flag and the runs keeps exactness. */
  lemma SameFlagsAreExact(d: DaemonState, e: DaemonState, id: string)
    requires IsExact(d, id) && e.runs == d.runs && |e.jobs| == |d.jobs|
    requires forall k :: 0 <= k < |d.jobs| ==> e.jobs[k].id == d.jobs[k].id && e.jobs[k].running == d.jobs[k].running
    ensures IsExact(e, id)
  {
    forall k | 0 <= k < |e.jobs| && e.jobs[k].id == id ensures e.runs[id] == if e.jobs[k].running then 1 else 0 {
      assert d.jobs[k].id == id;
    }
  }

  lemma ActIsExact(d: DaemonState, i: nat, action: Action, id: string)
    requires DistinctIds(d.jobs) && IsExact(d, id) && i < |d.jobs|
    requires action == StartNow && d.jobs[i].running ==> d.jobs[i].id != id
    ensures IsExact(Act(d, i, action), id)
  {
    ActFrame(d, i, action);
    var e := Act(d, i, action);
    if action == StartNow && !d.jobs[i].running {
      StartIsExact(d, i, id);
    } else if action == StartNow {
      forall k | 0 <= k < |e.jobs| && e.jobs[k].id == id ensures e.runs[id] == if e.jobs[k].running then 1 else 0 {
        assert d.jobs[k].id == id;
      }
    } else {
      SameFlagsAreExact(d, e, id);
    }
  }

  lemma FireIsExact(calendar: Calendar, d: DaemonState, i: nat, now: Instant, id: string)
    requires Sound(d) && IsExact(d, id) && i < |d.jobs| && (d.jobs[i].id == id ==> IsSerial(d.jobs[i], id))
    ensures IsExact(Fire(calendar, d, i, now), id)
  {
    var noted := NoteFire(d, i, FireTime(d.jobs[i], now));
    NotedIsExact(d, i, FireTime(d.jobs[i], now), id);
    ActIsExact(noted, i, ActionFor(d.running, d.limit, d.jobs[i]), id);
    PlannedFlags(calendar, Fired(d, i, now), i, now);
    SameFlagsAreExact(Fired(d, i, now), Fire(calendar, d, i, now), id);
  }

  lemma NotedIsExact(d: DaemonState, i: nat, fire: Instant, id: string)
    requires IsExact(d, id) && i < |d.jobs|
    ensures IsExact(NoteFire(d, i, fire), id)
  {
    var noted := NoteFire(d, i, fire);
    assert forall k :: 0 <= k < |d.jobs| ==> noted.jobs[k].id == d.jobs[k].id && noted.jobs[k].running == d.jobs[k].running;
    SameFlagsAreExact(d, noted, id);
  }

  lemma PlannedFlags(calendar: Calendar, d: DaemonState, i: nat, now: Instant)
    requires i < |d.jobs|
    ensures var e := PlanJob(calendar, SaveState(d, i), i, now, false);
            && e.runs == d.runs && e.running == d.running && e.limit == d.limit && e.stopping == d.stopping && |e.jobs| == |d.jobs|
            && (forall k :: 0 <= k < |d.jobs| && k != i ==> e.jobs[k] == d.jobs[k])
            && e.jobs[i] == d.jobs[i].(nextFire := e.jobs[i].nextFire)
  {
  }

  lemma {:induction false} FireEachIsExact(calendar: Calendar, d: DaemonState, due: seq<nat>, now: Instant, id: string)
    requires Sound(d) && Advances(calendar) && IsExact(d, id)
    requires forall k :: 0 <= k < |due| ==> due[k] < |d.jobs|
    requires forall i :: 0 <= i < |d.jobs| && d.jobs[i].id == id ==> IsSerial(d.jobs[i], id)
    ensures IsExact(FireEach(calendar, d, due, now), id)
    decreases |due|
  {
    if due != [] {
      var e := Fire(calendar, d, due[0], now);
      FireChanges(calendar, d, due[0], now);
      FireIsExact(calendar, d, due[0], now, id);
      assert forall i :: 0 <= i < |d.jobs| ==> e.jobs[i].id == d.jobs[i].id && e.jobs[i].schedule == d.jobs[i].schedule;
      FireEachIsExact(calendar, e, due[1..], now, id);
    }
  }

  lemma {:induction false} StartWaitingIsExact(d: DaemonState, id: string)
    requires DistinctIds(d.jobs) && IsExact(d, id)
    ensures IsExact(StartWaiting(d), id)
    decreases d.limit - d.running
  {
    if d.running < d.limit && FirstWaiting(d.jobs, 0).Some? {
      var i := FirstWaiting(d.jobs, 0).value;
      StartIsExact(d, i, id);
      var e := Start(d, i);
      assert forall k :: 0 <= k < |d.jobs| ==> e.jobs[k].id == d.jobs[k].id;
      StartWaitingIsExact(e, id);
    }
  }

  lemma EndIsExact(d: DaemonState, ended: string, outcome: RunOutcome, id: string)
    requires Sound(d) && ended in d.runs && IsExact(d, id)
    ensures IsExact(Finished(d, ended, outcome), id)
  {
    var e := NoteEnd(d, ended, outcome);
    NoteEndKeeps(d, ended, outcome);
    forall k | 0 <= k < |e.jobs| && e.jobs[k].id == id ensures e.runs[id] == if e.jobs[k].running then 1 else 0 {
      assert d.jobs[k].id == id;
    }
    StartWaitingIsExact(e, id);
  }

  /** Every job after a manifest was read again: one of another manifest, or one just read. */
  lemma InstalledJob(calendar: Calendar, d: DaemonState, path: string, latest: seq<Job>, now: Instant, k: nat)
    requires k < |Install(calendar, d, path, latest, now).jobs|
    ensures var job, first := Install(calendar, d, path, latest, now).jobs[k], |Others(d.jobs, path)|;
            if k < first then job in d.jobs
            else k - first < |latest| && job == Replanned(calendar, Carried(d.jobs, latest[k - first]), now)
  {
    var others := Others(d.jobs, path);
    if k < |others| {
      assert others[k] in others;
    }
  }

  lemma CarriedFlag(calendar: Calendar, jobs: seq<Job>, job: Job, now: Instant)
    ensures var carried := Replanned(calendar, Carried(jobs, job), now);
            && carried.id == job.id && carried.schedule == job.schedule && carried.state == job.state && carried.error == job.error
            && (job.id in Ids(jobs) ==> var before := jobs[Find(jobs, job.id).value];
                  before.id == job.id && carried.running == before.running && carried.queued == before.queued)
            && (job.id !in Ids(jobs) ==> carried.running == job.running && carried.queued == job.queued)
  {
    var carried := Carried(jobs, job);
    assert Plan(calendar, carried, now, false) == carried.(nextFire := Plan(calendar, carried, now, false).nextFire);
  }

  lemma CarriedIsExact(calendar: Calendar, d: DaemonState, job: Job, now: Instant)
    requires IsExact(d, job.id) && job.id in Ids(d.jobs)
    ensures d.runs[job.id] == if Replanned(calendar, Carried(d.jobs, job), now).running then 1 else 0
  {
    CarriedFlag(calendar, d.jobs, job, now);
  }

  lemma HeldIsExact(d: DaemonState, job: Job)
    requires IsExact(d, job.id) && job in d.jobs
    ensures d.runs[job.id] == if job.running then 1 else 0
  {
    var i :| 0 <= i < |d.jobs| && d.jobs[i] == job;
  }

  /** A job the daemon held before, or one just read that carries on. */
  ghost predicate IsInstalled(calendar: Calendar, d: DaemonState, latest: seq<Job>, now: Instant, job: Job) {
    job in d.jobs || exists n :: 0 <= n < |latest| && job == Replanned(calendar, Carried(d.jobs, latest[n]), now)
  }

  lemma InstalledIsExact(calendar: Calendar, d: DaemonState, latest: seq<Job>, now: Instant, job: Job)
    requires IsExact(d, job.id) && job.id in Ids(d.jobs) && IsInstalled(calendar, d, latest, now, job)
    ensures d.runs[job.id] == if job.running then 1 else 0
  {
    if job in d.jobs {
      HeldIsExact(d, job);
    } else {
      var n :| 0 <= n < |latest| && job == Replanned(calendar, Carried(d.jobs, latest[n]), now);
      CarriedFlag(calendar, d.jobs, latest[n], now);
      CarriedIsExact(calendar, d, latest[n], now);
    }
  }

  lemma InstalledAreExact(calendar: Calendar, d: DaemonState, e: DaemonState, latest: seq<Job>, now: Instant, id: string)
    requires IsExact(d, id) && id in Ids(d.jobs) && e.runs == d.runs
    requires forall k :: 0 <= k < |e.jobs| ==> IsInstalled(calendar, d, latest, now, e.jobs[k])
    ensures IsExact(e, id)
  {
    forall k | 0 <= k < |e.jobs| && e.jobs[k].id == id ensures e.runs[id] == if e.jobs[k].running then 1 else 0 {
      InstalledIsExact(calendar, d, latest, now, e.jobs[k]);
    }
  }

  /** A job read again keeps its flag, when the daemon held it before. */
  lemma InstallIsExact(calendar: Calendar, d: DaemonState, path: string, latest: seq<Job>, now: Instant, id: string)
    requires IsExact(d, id) && id in Ids(d.jobs)
    ensures IsExact(Install(calendar, d, path, latest, now), id)
  {
    var e := Install(calendar, d, path, latest, now);
    forall k | 0 <= k < |e.jobs| ensures IsInstalled(calendar, d, latest, now, e.jobs[k]) {
      InstalledJob(calendar, d, path, latest, now, k);
    }
    InstalledAreExact(calendar, d, e, latest, now, id);
  }

  lemma DroppingIsExact(d: DaemonState, e: DaemonState, id: string)
    requires IsExact(d, id) && e.runs == d.runs && forall j :: j in e.jobs ==> j in d.jobs
    ensures IsExact(e, id)
  {
    forall k | 0 <= k < |e.jobs| && e.jobs[k].id == id ensures e.runs[id] == if e.jobs[k].running then 1 else 0 {
      assert e.jobs[k] in e.jobs;
      var i :| 0 <= i < |d.jobs| && d.jobs[i] == e.jobs[k];
    }
  }

  lemma HoldIsExact(calendar: Calendar, d: DaemonState, held: string, paused: bool, now: Instant, id: string)
    requires IsExact(d, id)
    ensures IsExact(DaemonSteps.Hold(calendar, d, held, paused, now).0, id)
  {
    var found := Find(d.jobs, held);
    if found.Some? {
      var job := d.jobs[found.value];
      var changed := WithJob(d, found.value, job.(state := job.state.(paused := paused)));
      SameFlagsAreExact(d, changed, id);
      PlannedFlags(calendar, changed, found.value, now);
      SameFlagsAreExact(changed, DaemonSteps.Hold(calendar, d, held, paused, now).0, id);
    }
  }

  lemma TickIsExact(calendar: Calendar, d: DaemonState, now: Instant, id: string)
    requires Sound(d) && Advances(calendar) && HoldsSerial(d, id) && IsExact(d, id)
    ensures IsExact(FireDue(calendar, d, now), id)
  {
    var due := Due(d.jobs, now, 0);
    assert forall k :: 0 <= k < |due| ==> due[k] in due;
    FireEachIsExact(calendar, d, due, now, id);
  }

  lemma AddIsExact(calendar: Calendar, d: DaemonState, watched: Watched, files: Files, now: Instant, id: string)
    requires IsExact(d, id) && id in Ids(d.jobs)
    ensures IsExact(DaemonSteps.Add(calendar, d, watched, files, now).0, id)
  {
    var watching := d.(registry := WithoutPath(d.registry, watched.path) + [watched]);
    InstallIsExact(calendar, watching, watched.path, JobsOf(watched, files, d.states), now, id);
  }

  lemma TriggerIsExact(d: DaemonState, started: string, id: string)
    requires DistinctIds(d.jobs) && IsExact(d, id)
    ensures IsExact(DaemonSteps.Trigger(d, started).0, id)
  {
    if TriggerAnswer(d, started).Done? {
      StartIsExact(d, Find(d.jobs, started).value, id);
    }
  }

  lemma StepIsExact(calendar: Calendar, d: DaemonState, step: Step, id: string)
    requires Sound(d) && Advances(calendar) && Legal(d, step) && HoldsSerial(d, id) && IsExact(d, id)
    ensures IsExact(Apply(calendar, d, step), id)
  {
    var own :| 0 <= own < |d.jobs| && IsSerial(d.jobs[own], id);
    assert id in Ids(d.jobs);
    match step
    case Tick(now) => TickIsExact(calendar, d, now, id);
    case Watch(watched, files, now) => AddIsExact(calendar, d, watched, files, now, id);
    case Unwatch(path) => DroppingIsExact(d, DaemonSteps.Remove(d, path).0, id);
    case Pause(held, now) => HoldIsExact(calendar, d, held, true, now, id);
    case Resume(held, now) => HoldIsExact(calendar, d, held, false, now, id);
    case Trigger(started) => TriggerIsExact(d, started, id);
    case Relist(registry) => DroppingIsExact(d, DaemonSteps.Relist(d, registry), id);
    case Reread(watched, files, now) => InstallIsExact(calendar, d, watched.path, JobsOf(watched, files, d.states), now, id);
    case End(ended, outcome) => EndIsExact(d, ended, outcome, id);
    case Stop => DroppingIsExact(d, BeginStopping(d), id);
    case Signal => DroppingIsExact(d, DaemonSteps.Signal(d), id);
    case Restart(registry, files, saved, limit, now) => OpenIsExact(calendar, registry, files, saved, limit, d.fires, now, id);
  }

  lemma OpenIsExact(calendar: Calendar, registry: seq<Watched>, files: Files, saved: States, limit: nat,
                    fires: map<string, seq<Instant>>, now: Instant, id: string)
    ensures IsExact(Open(calendar, registry, files, saved, limit, fires, now), id)
  {
    var e := Open(calendar, registry, files, saved, limit, fires, now);
    var jobs := Build(registry, files, saved);
    BuildReads(registry, files, saved);
    forall k | 0 <= k < |jobs| ensures !e.jobs[k].running {
      assert jobs[k] in jobs;
      assert e.jobs[k] == Plan(calendar, jobs[k], now, true);
    }
  }

  /** A job that stays in the set and is never parallel has one outstanding run exactly when its flag is set. */
  lemma {:induction false} FlagsAreExact(calendar: Calendar, trace: seq<DaemonState>, steps: seq<Step>, id: string, k: nat)
    requires Advances(calendar) && IsHistory(calendar, trace, steps) && Sound(trace[0]) && k < |trace|
    requires IsExact(trace[0], id) && forall n :: 0 <= n < |trace| ==> HoldsSerial(trace[n], id)
    ensures IsExact(trace[k], id)
  {
    if k > 0 {
      FlagsAreExact(calendar, trace, steps, id, k - 1);
      EveryStateIsSound(calendar, trace, steps, k - 1);
      assert HoldsSerial(trace[k - 1], id);
      StepIsExact(calendar, trace[k - 1], steps[k - 1], id);
    }
  }

  // ----- waiting fires get their turn -----

  /** The daemon may start another run. */
  predicate HasRoom(d: DaemonState) {
    !d.stopping && d.running < d.limit
  }

  /** No ready, idle job waits while there is room. */
  predicate NoneIdle(d: DaemonState) {
    HasRoom(d) ==> forall i :: 0 <= i < |d.jobs| ==> !IsWaiting(d.jobs[i])
  }

  lemma {:induction false} StartWaitingFills(d: DaemonState)
    ensures NoneIdle(StartWaiting(d))
    decreases d.limit - d.running
  {
    if d.running < d.limit && FirstWaiting(d.jobs, 0).Some? {
      StartWaitingFills(Start(d, FirstWaiting(d.jobs, 0).value));
    }
  }

  /** The end of any run leaves no ready, idle job waiting, whatever the state before. */
  lemma EndWakesWaiting(d: DaemonState, id: string, outcome: RunOutcome)
    ensures NoneIdle(Finished(d, id, outcome))
  {
    StartWaitingFills(NoteEnd(d, id, outcome));
  }

  /** Starting waiting fires starts nothing else, and changes nothing of the jobs it leaves. */
  lemma {:induction false} OnlyWaitingStart(d: DaemonState)
    ensures var e := StartWaiting(d);
            && |e.jobs| == |d.jobs| && e.states == d.states && e.saved == d.saved && e.fires == d.fires && e.running >= d.running
            && forall i :: 0 <= i < |d.jobs| ==>
                 e.jobs[i] == d.jobs[i] || (IsWaiting(d.jobs[i]) && e.jobs[i] == d.jobs[i].(running := true, queued := false))
    decreases d.limit - d.running
  {
    if d.running < d.limit && FirstWaiting(d.jobs, 0).Some? {
      var i := FirstWaiting(d.jobs, 0).value;
      OnlyWaitingStart(Start(d, i));
      assert !IsWaiting(Start(d, i).jobs[i]);
    }
  }

  /** The end of a run is remembered for its job alone, beside what the job remembered before. */
  lemma EndIsRemembered(d: DaemonState, id: string, outcome: RunOutcome, other: string)
    requires Sound(d)
    ensures var before, after := StateOf(d.states, other), StateOf(Finished(d, id, outcome).states, other);
            after == if other == id && id in Ids(d.jobs) then before.(lastRun := outcome.directory, lastStatus := outcome.status) else before
  {
    OnlyWaitingStart(NoteEnd(d, id, outcome));
    var found := Find(d.jobs, id);
    if found.Some? {
      assert IsKept(d, d.jobs[found.value]);
      assert id in Ids(d.jobs);
    }
  }

  lemma FireLeavesNoneIdle(calendar: Calendar, d: DaemonState, i: nat, now: Instant)
    requires NoneIdle(d) && i < |d.jobs|
    ensures NoneIdle(Fire(calendar, d, i, now))
  {
    ActLeavesNoneIdle(d, i, FireTime(d.jobs[i], now));
    PlannedFlags(calendar, Fired(d, i, now), i, now);
    SameWaitingLeavesNoneIdle(Fired(d, i, now), Fire(calendar, d, i, now));
  }

  lemma ActLeavesNoneIdle(d: DaemonState, i: nat, fire: Instant)
    requires NoneIdle(d) && i < |d.jobs|
    ensures NoneIdle(Act(NoteFire(d, i, fire), i, ActionFor(d.running, d.limit, d.jobs[i])))
  {
    var e := Act(NoteFire(d, i, fire), i, ActionFor(d.running, d.limit, d.jobs[i]));
    if HasRoom(e) {
      assert HasRoom(d);
      forall k | 0 <= k < |e.jobs| ensures !IsWaiting(e.jobs[k]) {
        assert !IsWaiting(d.jobs[k]);
      }
    }
  }

  lemma SameWaitingLeavesNoneIdle(d: DaemonState, e: DaemonState)
    requires NoneIdle(d) && HasRoom(d) == HasRoom(e) && |e.jobs| == |d.jobs|
    requires forall k :: 0 <= k < |d.jobs| ==> IsWaiting(e.jobs[k]) == IsWaiting(d.jobs[k])
    ensures NoneIdle(e)
  {
  }

  lemma {:induction false} FireEachLeavesNoneIdle(calendar: Calendar, d: DaemonState, due: seq<nat>, now: Instant)
    requires NoneIdle(d) && forall k :: 0 <= k < |due| ==> due[k] < |d.jobs|
    ensures NoneIdle(FireEach(calendar, d, due, now))
    decreases |due|
  {
    if due != [] {
      FireLeavesNoneIdle(calendar, d, due[0], now);
      FireEachLeavesNoneIdle(calendar, Fire(calendar, d, due[0], now), due[1..], now);
    }
  }

  lemma DroppingLeavesNoneIdle(d: DaemonState, e: DaemonState)
    requires NoneIdle(d) && e.running == d.running && e.limit == d.limit && e.stopping == d.stopping
    requires forall j :: j in e.jobs ==> j in d.jobs
    ensures NoneIdle(e)
  {
    forall k | 0 <= k < |e.jobs| && HasRoom(e) ensures !IsWaiting(e.jobs[k]) {
      assert e.jobs[k] in e.jobs;
      var i :| 0 <= i < |d.jobs| && d.jobs[i] == e.jobs[k];
    }
  }

  /** What holding a job changes. */
  lemma HoldChanges(calendar: Calendar, d: DaemonState, id: string, paused: bool, now: Instant)
    requires id in Ids(d.jobs)
    ensures var e, i := DaemonSteps.Hold(calendar, d, id, paused, now).0, Find(d.jobs, id).value;
            && e.running == d.running && e.limit == d.limit && e.stopping == d.stopping && |e.jobs| == |d.jobs|
            && (forall k :: 0 <= k < |d.jobs| && k != i ==> e.jobs[k] == d.jobs[k])
            && e.jobs[i] == d.jobs[i].(state := d.jobs[i].state.(paused := paused), nextFire := e.jobs[i].nextFire)
  {
    var i := Find(d.jobs, id).value;
    PlannedFlags(calendar, WithJob(d, i, d.jobs[i].(state := d.jobs[i].state.(paused := paused))), i, now);
  }

  lemma TickLeavesNoneIdle(calendar: Calendar, d: DaemonState, now: Instant)
    requires NoneIdle(d)
    ensures NoneIdle(FireDue(calendar, d, now))
  {
    var due := Due(d.jobs, now, 0);
    assert forall k :: 0 <= k < |due| ==> due[k] in due;
    FireEachLeavesNoneIdle(calendar, d, due, now);
  }

  lemma PauseLeavesNoneIdle(calendar: Calendar, d: DaemonState, id: string, now: Instant)
    requires NoneIdle(d)
    ensures NoneIdle(DaemonSteps.Hold(calendar, d, id, true, now).0)
  {
    if id in Ids(d.jobs) {
      HoldChanges(calendar, d, id, true, now);
    }
  }

  lemma OpenLeavesNoneIdle(calendar: Calendar, registry: seq<Watched>, files: Files, saved: States, limit: nat,
                           fires: map<string, seq<Instant>>, now: Instant)
    ensures NoneIdle(Open(calendar, registry, files, saved, limit, fires, now))
  {
    var jobs := Build(registry, files, saved);
    BuildReads(registry, files, saved);
    forall k | 0 <= k < |jobs| ensures !Open(calendar, registry, files, saved, limit, fires, now).jobs[k].queued {
      assert jobs[k] in jobs;
    }
  }

  /** Fires, ends, triggers, pauses, removals, stops and restarts leave no ready, idle job waiting. */
  lemma StepLeavesNoneIdle(calendar: Calendar, d: DaemonState, step: Step)
    requires NoneIdle(d) && !step.Resume? && !step.Reread? && !step.Watch?
    ensures NoneIdle(Apply(calendar, d, step))
  {
    match step
    case Tick(now) => TickLeavesNoneIdle(calendar, d, now);
    case Unwatch(path) => DroppingLeavesNoneIdle(d, DaemonSteps.Remove(d, path).0);
    case Pause(id, now) => PauseLeavesNoneIdle(calendar, d, id, now);
    case Trigger(_) =>
    case Relist(registry) => DroppingLeavesNoneIdle(d, DaemonSteps.Relist(d, registry));
    case End(id, outcome) => EndWakesWaiting(d, id, outcome);
    case Stop =>
    case Signal =>
    case Restart(registry, files, saved, limit, now) => OpenLeavesNoneIdle(calendar, registry, files, saved, limit, d.fires, now);
  }

  /** A paused fire that waits, and that resuming would free without starting. */
  predicate WouldStrand(d: DaemonState, id: string) {
    HasRoom(d) && exists i :: 0 <= i < |d.jobs| && IsStuck(d.jobs[i], id)
  }

  predicate IsStuck(job: Job, id: string) {
    job.id == id && job.queued && !job.running && job.error.None? && job.schedule.Some? && job.schedule.value.enabled
  }

  /** Resuming starts nothing, so no job is left idle exactly when resuming frees no waiting fire. */
  lemma ResumeLeavesNoneIdleExactly(calendar: Calendar, d: DaemonState, id: string, now: Instant)
    requires Sound(d) && NoneIdle(d)
    ensures NoneIdle(Apply(calendar, d, Resume(id, now))) <==> !WouldStrand(d, id)
  {
    var e := Apply(calendar, d, Resume(id, now));
    if id in Ids(d.jobs) {
      var i := Find(d.jobs, id).value;
      HoldChanges(calendar, d, id, false, now);
      assert IsWaiting(e.jobs[i]) <==> IsStuck(d.jobs[i], id);
      assert forall k :: 0 <= k < |d.jobs| && d.jobs[k].id == id ==> k == i;
    } else {
      assert forall k :: 0 <= k < |d.jobs| ==> d.jobs[k].id in Ids(d.jobs);
    }
  }

  /** A waiting fire of a job the manifest now lets run. */
  predicate RereadStrands(d: DaemonState, job: Job) {
    HasRoom(d) && IsReady(job) && exists i :: 0 <= i < |d.jobs| && d.jobs[i].id == job.id && d.jobs[i].queued && !d.jobs[i].running
  }

  lemma CarriedWaits(calendar: Calendar, d: DaemonState, job: Job, now: Instant)
    requires DistinctIds(d.jobs) && HasRoom(d) && !job.queued
    ensures IsWaiting(Replanned(calendar, Carried(d.jobs, job), now)) <==> RereadStrands(d, job)
  {
    CarriedFlag(calendar, d.jobs, job, now);
    if job.id in Ids(d.jobs) {
      var i := Find(d.jobs, job.id).value;
      assert forall k :: 0 <= k < |d.jobs| && d.jobs[k].id == job.id ==> k == i;
    } else {
      assert forall k :: 0 <= k < |d.jobs| ==> d.jobs[k].id in Ids(d.jobs);
    }
  }

  /** Reading a manifest again leaves none idle exactly when none of its jobs becomes ready with a fire waiting. */
  lemma RereadLeavesNoneIdleExactly(calendar: Calendar, d: DaemonState, path: string, latest: seq<Job>, now: Instant)
    requires DistinctIds(d.jobs) && NoneIdle(d) && forall n :: 0 <= n < |latest| ==> !latest[n].queued
    ensures NoneIdle(Install(calendar, d, path, latest, now)) <==>
            forall n :: 0 <= n < |latest| ==> !RereadStrands(d, latest[n])
  {
    var first := |Others(d.jobs, path)|;
    var jobs := Install(calendar, d, path, latest, now).jobs;
    if HasRoom(d) {
      forall n | 0 <= n < |latest| ensures IsWaiting(jobs[first + n]) <==> RereadStrands(d, latest[n]) {
        InstalledJob(calendar, d, path, latest, now, first + n);
        CarriedWaits(calendar, d, latest[n], now);
      }
      forall k | 0 <= k < |jobs| && IsWaiting(jobs[k]) ensures k >= first && RereadStrands(d, latest[k - first]) {
        InstalledJob(calendar, d, path, latest, now, k);
        if k >= first {
          CarriedWaits(calendar, d, latest[k - first], now);
        }
      }
    }
  }

  /** A fire waits only behind some outstanding run. */
  lemma WaitingHasARun(d: DaemonState, i: nat)
    requires Sound(d) && i < |d.jobs|
    ensures ActionFor(d.running, d.limit, d.jobs[i]) == Wait ==> d.runs != multiset{}
    ensures NoneIdle(d) && !d.stopping && d.jobs[i].queued && IsReady(d.jobs[i]) ==> d.runs != multiset{}
  {
    assert IsKept(d, d.jobs[i]);
  }

  // ----- stopping -----

  /** A stopping daemon goes on stopping, with the runs it has or fewer. */
  predicate LosesRuns(d: DaemonState, e: DaemonState) {
    d.stopping ==> e.stopping && e.runs <= d.runs
  }

  lemma StoppingLosesRuns(calendar: Calendar, d: DaemonState, step: Step)
    requires !step.Restart? && !step.Trigger?
    ensures LosesRuns(d, Apply(calendar, d, step))
  {
  }

  lemma {:induction false} RunsAreLost(trace: seq<DaemonState>, k: nat)
    requires k < |trace| && forall n :: 0 <= n < k ==> LosesRuns(trace[n], trace[n + 1])
    ensures LosesRuns(trace[0], trace[k])
  {
    if k > 0 {
      RunsAreLost(trace, k - 1);
      assert LosesRuns(trace[k - 1], trace[k]);
    }
  }

  /**
   * A daemon that is stopping stays so, and starts a run in exactly one case: a trigger that is answered with done.
   * Only a restart is a new daemon.
   */
  lemma StoppingStartsOnlyTriggers(calendar: Calendar, d: DaemonState, step: Step)
    requires d.stopping && !step.Restart?
    ensures Apply(calendar, d, step).stopping
    ensures Apply(calendar, d, step).runs <= d.runs <==> !(step.Trigger? && TriggerAnswer(d, step.id).Done?)
  {
    if !step.Trigger? {
      StoppingLosesRuns(calendar, d, step);
    } else if TriggerAnswer(d, step.id).Done? {
      assert Apply(calendar, d, step).runs[step.id] == d.runs[step.id] + 1;
    }
  }

  /** From the stop on, a history without triggers and restarts only loses runs. */
  lemma StoppingDrains(calendar: Calendar, trace: seq<DaemonState>, steps: seq<Step>, k: nat)
    requires IsHistory(calendar, trace, steps) && trace[0].stopping && k < |trace|
    requires forall n :: 0 <= n < |steps| ==> !steps[n].Restart? && !steps[n].Trigger?
    ensures trace[k].stopping && trace[k].runs <= trace[0].runs
  {
    forall n | 0 <= n < k ensures LosesRuns(trace[n], trace[n + 1]) {
      StoppingLosesRuns(calendar, trace[n], steps[n]);
    }
    RunsAreLost(trace, k);
  }

  // ----- two ways to hold a job -----

  lemma WrittenTwice(states: States)
    ensures Written(Written(states)) == Written(states)
  {
  }

  /** Pausing or resuming through the daemon and in the file alone answer the same and write the same file. */
  lemma HoldsAreTwins(calendar: Calendar, d: DaemonState, id: string, paused: bool, now: Instant)
    requires Sound(d)
    ensures DaemonSteps.Hold(calendar, d, id, paused, now).0.saved == HoldOffline(d.saved, Ids(d.jobs), id, paused).0
    ensures DaemonSteps.Hold(calendar, d, id, paused, now).1 == HoldOffline(d.saved, Ids(d.jobs), id, paused).1
  {
    if id in Ids(d.jobs) {
      var job := d.jobs[Find(d.jobs, id).value];
      assert IsKept(d, job);
      WrittenTwice(d.states);
      var online, offline := Written(d.states[id := job.state.(paused := paused)]), Written(d.saved[id := StateOf(d.saved, id).(paused := paused)]);
      assert DaemonSteps.Hold(calendar, d, id, paused, now).0.saved == online;
      forall other | other in online ensures other in offline && online[other] == offline[other] {
        assert other != id ==> d.saved[other] == WrittenState(d.states[other]);
      }
      assert online == offline;
    } else {
      assert Find(d.jobs, id).None?;
    }
  }

  /** A manifest that stops loading for a while gives its jobs back with the state they had. */
  lemma RereadKeepsHistory(calendar: Calendar, d: DaemonState, watched: Watched, broken: Files, mended: Files,
                           now: Instant, later: Instant, before: nat, after: nat)
    requires Sound(d) && Advances(calendar) && Legal(d, Reread(watched, broken, now))
    requires var e := Apply(calendar, d, Reread(watched, broken, now)); Legal(e, Reread(watched, mended, later))
    requires var f := Apply(calendar, Apply(calendar, d, Reread(watched, broken, now)), Reread(watched, mended, later));
             before < |d.jobs| && after < |f.jobs| && d.jobs[before].id == f.jobs[after].id
    ensures var f := Apply(calendar, Apply(calendar, d, Reread(watched, broken, now)), Reread(watched, mended, later));
            f.states == d.states && f.saved == d.saved && f.jobs[after].state == d.jobs[before].state
  {
    var e := Apply(calendar, d, Reread(watched, broken, now));
    var f := Apply(calendar, e, Reread(watched, mended, later));
    StepKeepsSound(calendar, d, Reread(watched, broken, now));
    StepKeepsSound(calendar, e, Reread(watched, mended, later));
    assert IsKept(d, d.jobs[before]) && IsKept(f, f.jobs[after]);
  }
}
