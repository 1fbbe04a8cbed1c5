/** What holds in every state the daemon can reach, whatever the clock, the commands and the runs do. */
module DaemonSafety {
  import opened Outcomes
  import opened Jobs
  import opened DaemonSteps

  /** Everything that can happen between two states at rest. */
  datatype Step =
    | Tick(now: Instant)
    | Watch(watched: Watched, files: Files, now: Instant)
    | Unwatch(path: string)
    | Pause(id: string, now: Instant)
    | Resume(id: string, now: Instant)
    | Trigger(id: string)
    | Relist(registry: seq<Watched>)
    | Reread(watched: Watched, files: Files, now: Instant)
    | End(id: string, outcome: RunOutcome)
    | Stop
    | Signal
    | Restart(registry: seq<Watched>, files: Files, saved: States, limit: nat, now: Instant)

  function Apply(calendar: Calendar, d: DaemonState, step: Step): DaemonState {
    match step
    case Tick(now) => FireDue(calendar, d, now)
    case Watch(watched, files, now) => DaemonSteps.Add(calendar, d, watched, files, now).0
    case Unwatch(path) => DaemonSteps.Remove(d, path).0
    case Pause(id, now) => DaemonSteps.Hold(calendar, d, id, true, now).0
    case Resume(id, now) => DaemonSteps.Hold(calendar, d, id, false, now).0
    case Trigger(id) => DaemonSteps.Trigger(d, id).0
    case Relist(registry) => DaemonSteps.Relist(d, registry)
    case Reread(watched, files, now) => DaemonSteps.Reread(calendar, d, watched, files, now)
    case End(id, outcome) => Finished(d, id, outcome)
    case Stop => BeginStopping(d)
    case Signal => DaemonSteps.Signal(d)
    case Restart(registry, files, saved, limit, now) => Open(calendar, registry, files, saved, limit, d.fires, now)
  }

  /** While no daemon runs, commands change the paused flags of the state file and nothing else of it. */
  ghost predicate SameButPaused(before: States, after: States) {
    forall id :: StateOf(after, id).(paused := false) == StateOf(before, id).(paused := false)
  }

  /** What the model takes for granted: ends report runs that exist, and job IDs stay distinct. */
  ghost predicate Legal(d: DaemonState, step: Step) {
    match step
    case Watch(watched, files, now) => NamesAreDistinct(files)
    case Reread(watched, files, now) =>
      && NamesAreDistinct(files)
      && watched.path in Paths(d.registry)
      && Ids(JobsOf(watched, files, d.states)) !! Ids(Others(d.jobs, watched.path))
    case End(id, outcome) => id in d.runs
    case Restart(registry, files, saved, limit, now) =>
      SameButPaused(d.saved, saved) && saved == Written(saved) && DistinctIds(Build(registry, files, saved))
    case _ => true
  }

  // ----- the invariant -----

  /** The counter is the number of outstanding runs, and the limit holds. */
  ghost predicate IsCounted(d: DaemonState) {
    d.running == |d.runs| <= d.limit && d.limit >= 1
  }

  /** A job marked as running has a run that will report its end. */
  ghost predicate IsFlagged(d: DaemonState, job: Job) {
    job.running ==> job.id in d.runs
  }

  /** The state map and the job hold the same state. */
  ghost predicate IsSynced(d: DaemonState, job: Job) {
    job.state == StateOf(d.states, job.id)
  }

  ghost predicate IsKept(d: DaemonState, job: Job) {
    IsFlagged(d, job) && IsSynced(d, job) && IsPlannedAhead(job) && job.manifest in Paths(d.registry)
  }

  ghost predicate Sound(d: DaemonState) {
    && IsCounted(d)
    && DistinctIds(d.jobs)
    && d.saved == Written(d.states)
    && forall i :: 0 <= i < |d.jobs| ==> IsKept(d, d.jobs[i])
  }

  /** `e` differs from `d` in one job and in that job's entry of the state map. */
  ghost predicate ChangesOne(d: DaemonState, e: DaemonState, i: nat) {
    && i < |d.jobs| && |e.jobs| == |d.jobs|
    && (forall k :: 0 <= k < |d.jobs| && k != i ==> e.jobs[k] == d.jobs[k])
    && e.jobs[i].id == d.jobs[i].id && e.jobs[i].manifest == d.jobs[i].manifest && e.jobs[i].schedule == d.jobs[i].schedule
    && (forall id :: id != d.jobs[i].id ==> StateOf(e.states, id) == StateOf(d.states, id))
    && StateOf(e.states, d.jobs[i].id) == e.jobs[i].state
    && e.saved == Written(e.states)
    && e.registry == d.registry && e.limit == d.limit && e.stopping == d.stopping
  }

  lemma ChangingOneKeeps(d: DaemonState, e: DaemonState, i: nat)
    requires Sound(d) && ChangesOne(d, e, i) && IsCounted(e)
    requires IsFlagged(e, e.jobs[i]) && IsPlannedAhead(e.jobs[i])
    requires forall id :: id != d.jobs[i].id && id in d.runs ==> id in e.runs
    ensures Sound(e)
  {
    forall k | 0 <= k < |e.jobs| ensures IsKept(e, e.jobs[k]) {
      assert IsKept(d, d.jobs[k]);
      if k != i {
        assert e.jobs[k].id != d.jobs[i].id;
      }
    }
    forall a, b | 0 <= a < b < |e.jobs| ensures e.jobs[a].id != e.jobs[b].id {
      assert e.jobs[a].id == d.jobs[a].id && e.jobs[b].id == d.jobs[b].id;
    }
  }

  // ----- steps -----

  lemma StartKeeps(d: DaemonState, i: nat)
    requires Sound(d) && i < |d.jobs| && d.running < d.limit
    ensures Sound(Start(d, i)) && ChangesOne(d, Start(d, i), i)
  {
    assert IsKept(d, d.jobs[i]);
    ChangingOneKeeps(d, Start(d, i), i);
  }

  function FireTime(job: Job, now: Instant): Instant {
    if job.nextFire.Some? then job.nextFire.value else now
  }

  /** The job as a fire leaves it, before the next one is planned. */
  function Fired(d: DaemonState, i: nat, now: Instant): DaemonState
    requires i < |d.jobs|
  {
    Act(NoteFire(d, i, FireTime(d.jobs[i], now)), i, ActionFor(d.running, d.limit, d.jobs[i]))
  }

  lemma ActFrame(d: DaemonState, i: nat, action: Action)
    requires i < |d.jobs|
    ensures var e := Act(d, i, action);
            && e.states == d.states && e.registry == d.registry && e.limit == d.limit && e.stopping == d.stopping && e.fires == d.fires
            && |e.jobs| == |d.jobs| && (forall k :: 0 <= k < |d.jobs| && k != i ==> e.jobs[k] == d.jobs[k])
            && e.jobs[i] == d.jobs[i].(running := e.jobs[i].running, queued := e.jobs[i].queued)
  {
  }

  lemma FiredJob(d: DaemonState, i: nat, now: Instant)
    requires i < |d.jobs|
    ensures var e := Fired(d, i, now);
            && |e.jobs| == |d.jobs| && (forall k :: 0 <= k < |d.jobs| && k != i ==> e.jobs[k] == d.jobs[k])
            && e.jobs[i].id == d.jobs[i].id && e.jobs[i].manifest == d.jobs[i].manifest && e.jobs[i].schedule == d.jobs[i].schedule
            && e.jobs[i].state.lastFire == Some(FireTime(d.jobs[i], now))
            && e.states == d.states && e.registry == d.registry && e.limit == d.limit && e.stopping == d.stopping
            && e.fires == d.fires[d.jobs[i].id := FiresOf(d.fires, d.jobs[i].id) + [FireTime(d.jobs[i], now)]]
  {
    ActFrame(NoteFire(d, i, FireTime(d.jobs[i], now)), i, ActionFor(d.running, d.limit, d.jobs[i]));
  }

  lemma FiredRuns(d: DaemonState, i: nat, now: Instant)
    requires i < |d.jobs| && IsCounted(d) && IsFlagged(d, d.jobs[i])
    ensures IsCounted(Fired(d, i, now)) && IsFlagged(Fired(d, i, now), Fired(d, i, now).jobs[i])
    ensures forall id :: id in d.runs ==> id in Fired(d, i, now).runs
  {
  }

  /** A fire touches one job, and leaves that job planned for later than now. */
  lemma FireChanges(calendar: Calendar, d: DaemonState, i: nat, now: Instant)
    requires Sound(d) && i < |d.jobs| && Advances(calendar)
    ensures ChangesOne(d, Fire(calendar, d, i, now), i)
    ensures Sound(Fire(calendar, d, i, now))
    ensures !IsDue(Fire(calendar, d, i, now).jobs[i], now)
  {
    var e := Fire(calendar, d, i, now);
    var fired := Fired(d, i, now);
    assert IsKept(d, d.jobs[i]);
    FiredJob(d, i, now);
    FiredRuns(d, i, now);
    PlanIsAhead(calendar, fired.jobs[i], now, false);
    assert e == PlanJob(calendar, SaveState(fired, i), i, now, false);
    ChangingOneKeeps(d, e, i);
  }

  /** After firing everything that is due, nothing is due. */
  lemma {:induction false} FireEachKeeps(calendar: Calendar, d: DaemonState, due: seq<nat>, now: Instant)
    requires Sound(d) && Advances(calendar)
    requires forall k :: 0 <= k < |due| ==> due[k] < |d.jobs|
    requires forall i :: 0 <= i < |d.jobs| && IsDue(d.jobs[i], now) ==> i in due
    ensures Sound(FireEach(calendar, d, due, now))
    ensures forall i :: 0 <= i < |d.jobs| ==> !IsDue(FireEach(calendar, d, due, now).jobs[i], now)
    decreases |due|
  {
    if due != [] {
      var e := Fire(calendar, d, due[0], now);
      FireChanges(calendar, d, due[0], now);
      forall i | 0 <= i < |e.jobs| && IsDue(e.jobs[i], now) ensures i in due[1..] {
        assert i != due[0] && e.jobs[i] == d.jobs[i];
        assert i in due && due == [due[0]] + due[1..];
      }
      FireEachKeeps(calendar, e, due[1..], now);
    }
  }

  /** No ready job is still due once the due jobs fired, unless the daemon is stopping. */
  lemma NothingStaysDue(calendar: Calendar, d: DaemonState, now: Instant)
    requires Sound(d) && Advances(calendar)
    ensures Sound(FireDue(calendar, d, now))
    ensures !d.stopping ==> forall i :: 0 <= i < |FireDue(calendar, d, now).jobs| ==> !IsDue(FireDue(calendar, d, now).jobs[i], now)
  {
    var due := Due(d.jobs, now, 0);
    assert forall k :: 0 <= k < |due| ==> due[k] in due;
    FireEachKeeps(calendar, d, due, now);
  }

  lemma {:induction false} StartWaitingKeeps(d: DaemonState)
    requires Sound(d)
    ensures Sound(StartWaiting(d))
    decreases d.limit - d.running
  {
    if d.running < d.limit && FirstWaiting(d.jobs, 0).Some? {
      var i := FirstWaiting(d.jobs, 0).value;
      StartKeeps(d, i);
      StartWaitingKeeps(Start(d, i));
    }
  }

  lemma NoteEndKeeps(d: DaemonState, id: string, outcome: RunOutcome)
    requires Sound(d) && id in d.runs
    ensures Sound(NoteEnd(d, id, outcome))
  {
    var e := NoteEnd(d, id, outcome);
    var found := Find(d.jobs, id);
    if found.Some? {
      assert IsKept(d, d.jobs[found.value]);
      ChangingOneKeeps(d, e, found.value);
    } else {
      forall k | 0 <= k < |e.jobs| ensures IsKept(e, e.jobs[k]) {
        assert IsKept(d, d.jobs[k]);
      }
    }
  }

  lemma HoldKeeps(calendar: Calendar, d: DaemonState, id: string, paused: bool, now: Instant)
    requires Sound(d) && Advances(calendar)
    ensures Sound(DaemonSteps.Hold(calendar, d, id, paused, now).0)
  {
    var found := Find(d.jobs, id);
    if found.Some? {
      var e := DaemonSteps.Hold(calendar, d, id, paused, now).0;
      var job := d.jobs[found.value];
      assert IsKept(d, job);
      PlanIsAhead(calendar, job.(state := job.state.(paused := paused)), now, false);
      ChangingOneKeeps(d, e, found.value);
    }
  }

  /** Dropping jobs keeps the rest sound. */
  lemma DroppingKeeps(d: DaemonState, e: DaemonState)
    requires Sound(d) && e.runs == d.runs && e.running == d.running && e.limit == d.limit
    requires DistinctIds(e.jobs) && e.saved == Written(e.states)
    requires forall j :: j in e.jobs ==> j in d.jobs && j.manifest in Paths(e.registry) && StateOf(e.states, j.id) == StateOf(d.states, j.id)
    ensures Sound(e)
  {
    forall k | 0 <= k < |e.jobs| ensures IsKept(e, e.jobs[k]) {
      assert e.jobs[k] in e.jobs;
      assert e.jobs[k] in d.jobs;
      var i :| 0 <= i < |d.jobs| && d.jobs[i] == e.jobs[k];
      assert IsKept(d, d.jobs[i]);
    }
  }

  lemma RemoveKeeps(d: DaemonState, path: string)
    requires Sound(d)
    ensures Sound(DaemonSteps.Remove(d, path).0)
  {
    var registry := WithoutPath(d.registry, path);
    if |registry| != |d.registry| {
      var e := DaemonSteps.Remove(d, path).0;
      forall j | j in e.jobs
        ensures j in d.jobs && j.manifest in Paths(e.registry) && StateOf(e.states, j.id) == StateOf(d.states, j.id)
      {
        var i :| 0 <= i < |d.jobs| && d.jobs[i] == j;
        assert IsKept(d, d.jobs[i]);
        var k :| 0 <= k < |e.jobs| && e.jobs[k] == j;
        assert e.jobs[k].id in Ids(e.jobs);
      }
      DroppingKeeps(d, e);
    }
  }

  // ----- reading a manifest again -----

  /** A job read again has the state it had, and a planned fire after its last one. */
  lemma CarriedIsKept(calendar: Calendar, d: DaemonState, job: Job, now: Instant)
    requires Sound(d) && Advances(calendar)
    requires IsSynced(d, job) && job.nextFire.None? && !job.running
    ensures var carried := Replanned(calendar, Carried(d.jobs, job), now);
            && carried.id == job.id && carried.manifest == job.manifest && carried.schedule == job.schedule
            && IsFlagged(d, carried) && IsSynced(d, carried) && IsPlannedAhead(carried)
  {
    var carried := Carried(d.jobs, job);
    PlanIsAhead(calendar, carried, now, false);
    var found := Find(d.jobs, job.id);
    if found.Some? {
      assert IsKept(d, d.jobs[found.value]);
    }
  }

  lemma InstallKeeps(calendar: Calendar, d: DaemonState, registry: seq<Watched>, path: string, latest: seq<Job>, now: Instant)
    requires Sound(d) && Advances(calendar)
    requires path in Paths(registry) && Paths(d.registry) - {path} <= Paths(registry)
    requires DistinctIds(latest) && Ids(latest) !! Ids(Others(d.jobs, path))
    requires forall i :: 0 <= i < |latest| ==>
      latest[i].manifest == path && IsSynced(d, latest[i]) && latest[i].nextFire.None? && !latest[i].running
    ensures Sound(Install(calendar, d.(registry := registry), path, latest, now))
  {
    var others := Others(d.jobs, path);
    var carried := CarriedOver(calendar, d.jobs, latest, now);
    var e := Install(calendar, d.(registry := registry), path, latest, now);
    forall i | 0 <= i < |carried| ensures carried[i].id == latest[i].id && IsKept(e, carried[i]) {
      CarriedIsKept(calendar, d, latest[i], now);
    }
    forall i | 0 <= i < |others| ensures IsKept(e, others[i]) {
      assert others[i] in others;
      var k :| 0 <= k < |d.jobs| && d.jobs[k] == others[i];
      assert IsKept(d, d.jobs[k]);
    }
    JoinedIdsAreDistinct(others, latest, carried);
  }

  lemma JoinedIdsAreDistinct(others: seq<Job>, latest: seq<Job>, carried: seq<Job>)
    requires DistinctIds(others) && DistinctIds(latest) && Ids(latest) !! Ids(others)
    requires |carried| == |latest| && forall i :: 0 <= i < |carried| ==> carried[i].id == latest[i].id
    ensures DistinctIds(others + carried)
  {
    var all := others + carried;
    forall a, b | 0 <= a < b < |all| ensures all[a].id != all[b].id {
      if a < |others| && b >= |others| {
        assert others[a].id in Ids(others);
        assert latest[b - |others|].id in Ids(latest);
      } else if a >= |others| {
        assert latest[a - |others|].id != latest[b - |others|].id;
      }
    }
  }

  lemma RereadKeeps(calendar: Calendar, d: DaemonState, watched: Watched, files: Files, now: Instant)
    requires Sound(d) && Advances(calendar) && Legal(d, Reread(watched, files, now))
    ensures Sound(DaemonSteps.Reread(calendar, d, watched, files, now))
  {
    JobsOfAreDistinct(watched, files, d.states);
    InstallKeeps(calendar, d, d.registry, watched.path, JobsOf(watched, files, d.states), now);
    assert d.(registry := d.registry) == d;
  }

  lemma AddKeeps(calendar: Calendar, d: DaemonState, watched: Watched, files: Files, now: Instant)
    requires Sound(d) && Advances(calendar) && NamesAreDistinct(files)
    ensures Sound(DaemonSteps.Add(calendar, d, watched, files, now).0)
  {
    var latest := JobsOf(watched, files, d.states);
    var others := OtherIds(Others(d.jobs, watched.path));
    if Admit(latest, others).Ok? {
      JobsOfAreDistinct(watched, files, d.states);
      var without := WithoutPath(d.registry, watched.path);
      var registry := without + [watched];
      assert registry[|without|].path == watched.path;
      forall p | p in Paths(without) ensures p in Paths(registry) {
        var i :| 0 <= i < |without| && without[i].path == p;
        assert registry[i].path == p;
      }
      assert forall id :: id in Ids(Others(d.jobs, watched.path)) ==> id in others;
      InstallKeeps(calendar, d, registry, watched.path, latest, now);
    }
  }

  lemma {:induction false} BuildReads(registry: seq<Watched>, files: Files, states: States)
    ensures forall j :: j in Build(registry, files, states) ==>
      j.manifest in Paths(registry) && j.state == StateOf(states, j.id) && j.nextFire.None? && !j.running && !j.queued
  {
    if registry != [] {
      BuildReads(registry[1..], files, states);
      assert registry == [registry[0]] + registry[1..];
      PathsOf(registry[0], registry[1..]);
    }
  }

  lemma OpenIsSound(calendar: Calendar, registry: seq<Watched>, files: Files, saved: States, limit: nat,
                    fires: map<string, seq<Instant>>, now: Instant)
    requires Advances(calendar) && saved == Written(saved) && DistinctIds(Build(registry, files, saved))
    ensures Sound(Open(calendar, registry, files, saved, limit, fires, now))
  {
    var e := Open(calendar, registry, files, saved, limit, fires, now);
    var jobs := Build(registry, files, saved);
    BuildReads(registry, files, saved);
    forall i | 0 <= i < |jobs| ensures IsKept(e, e.jobs[i]) && e.jobs[i].id == jobs[i].id {
      assert jobs[i] in jobs;
      PlanIsAhead(calendar, jobs[i], now, true);
    }
  }

  // ----- whole runs -----

  lemma StepKeepsSound(calendar: Calendar, d: DaemonState, step: Step)
    requires Sound(d) && Advances(calendar) && Legal(d, step)
    ensures Sound(Apply(calendar, d, step))
  {
    match step
    case Tick(now) => NothingStaysDue(calendar, d, now);
    case Watch(watched, files, now) => AddKeeps(calendar, d, watched, files, now);
    case Unwatch(path) => RemoveKeeps(d, path);
    case Pause(id, now) => HoldKeeps(calendar, d, id, true, now);
    case Resume(id, now) => HoldKeeps(calendar, d, id, false, now);
    case Trigger(id) =>
      if TriggerAnswer(d, id).Done? { StartKeeps(d, Find(d.jobs, id).value); }
    case Relist(registry) => DroppingKeeps(d, DaemonSteps.Relist(d, registry));
    case Reread(watched, files, now) => RereadKeeps(calendar, d, watched, files, now);
    case End(id, outcome) =>
      NoteEndKeeps(d, id, outcome);
      StartWaitingKeeps(NoteEnd(d, id, outcome));
    case Stop => DroppingKeeps(d, BeginStopping(d));
    case Signal => DroppingKeeps(d, DaemonSteps.Signal(d));
    case Restart(registry, files, saved, limit, now) => OpenIsSound(calendar, registry, files, saved, limit, d.fires, now);
  }

  /** A history of the daemon: its states at rest, and the steps between them. */
  ghost predicate IsHistory(calendar: Calendar, trace: seq<DaemonState>, steps: seq<Step>) {
    && |trace| == |steps| + 1
    && forall k :: 0 <= k < |steps| ==> Legal(trace[k], steps[k]) && trace[k + 1] == Apply(calendar, trace[k], steps[k])
  }

  /**
   * Every state of every history is sound: the counter is the number of outstanding runs and stays
   * within the limit, the state map agrees with every job and with the file, and planned fires lie ahead.
   */
  lemma {:induction false} EveryStateIsSound(calendar: Calendar, trace: seq<DaemonState>, steps: seq<Step>, k: nat)
    requires Advances(calendar) && IsHistory(calendar, trace, steps) && Sound(trace[0]) && k < |trace|
    ensures Sound(trace[k])
  {
    if k > 0 {
      EveryStateIsSound(calendar, trace, steps, k - 1);
      StepKeepsSound(calendar, trace[k - 1], steps[k - 1]);
    }
  }
}
