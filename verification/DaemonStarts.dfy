/** What makes a run start, and what a fire, a command and a re-read do to a job, told on its fields. */
module DaemonStarts {
  import opened Outcomes
  import opened Jobs
  import opened DaemonSteps
  import opened DaemonSafety
  import opened DaemonFires
  import opened DaemonRuns
  import Sequences

  // ----- what a fire does -----

  /** One more run of the job, nothing waiting any more. */
  predicate StartsRun(d: DaemonState, e: DaemonState, i: nat)
    requires i < |d.jobs| && |e.jobs| == |d.jobs|
  {
    e.runs == d.runs + multiset{d.jobs[i].id} && e.running == d.running + 1 && e.jobs[i].running && !e.jobs[i].queued
  }

  /** No run more or less; the fire waits, or it is dropped and `queued` stays as it was. */
  predicate StartsNone(d: DaemonState, e: DaemonState, i: nat, queued: bool)
    requires i < |d.jobs| && |e.jobs| == |d.jobs|
  {
    e.runs == d.runs && e.running == d.running && e.jobs[i].running == d.jobs[i].running && e.jobs[i].queued == queued
  }

  /**
   * At the limit a fire waits. Below it an idle job starts, and a running one does what its overlap says: skip drops
   * the fire, queue lets it wait, parallel starts one more run.
   */
  predicate FiresAs(d: DaemonState, e: DaemonState, i: nat)
    requires i < |d.jobs| && |e.jobs| == |d.jobs|
  {
    var job := d.jobs[i];
    if d.running >= d.limit then StartsNone(d, e, i, true)
    else if !job.running then StartsRun(d, e, i)
    else if job.schedule.None? then StartsNone(d, e, i, job.queued)
    else match job.schedule.value.onOverlap
      case Skip => StartsNone(d, e, i, job.queued)
      case Queue => StartsNone(d, e, i, true)
      case Parallel => StartsRun(d, e, i)
  }

  lemma ActFiresAs(d: DaemonState, i: nat, fire: Instant)
    requires i < |d.jobs|
    ensures FiresAs(d, Act(NoteFire(d, i, fire), i, ActionFor(d.running, d.limit, d.jobs[i])), i)
  {
  }

  /** What one fire starts, queues or drops; no other job is touched. */
  lemma FireActsExactly(calendar: Calendar, d: DaemonState, i: nat, now: Instant)
    requires i < |d.jobs|
    ensures FiresAs(d, Fire(calendar, d, i, now), i)
    ensures forall k :: 0 <= k < |d.jobs| && k != i ==> Fire(calendar, d, i, now).jobs[k] == d.jobs[k]
  {
    ActFiresAs(d, i, FireTime(d.jobs[i], now));
    PlannedFlags(calendar, Fired(d, i, now), i, now);
    FiredJob(d, i, now);
  }

  // ----- what a tick fires -----

  /** The fires of the job at `k` after the ones in `due`. */
  lemma {:induction false} FireEachFires(calendar: Calendar, d: DaemonState, due: seq<nat>, now: Instant, k: nat)
    requires Sound(d) && Advances(calendar) && k < |d.jobs|
    requires forall n :: 0 <= n < |due| ==> due[n] < |d.jobs| && d.jobs[due[n]].nextFire.Some?
    requires forall a, b :: 0 <= a < b < |due| ==> due[a] < due[b]
    ensures FiresOf(FireEach(calendar, d, due, now).fires, d.jobs[k].id) ==
            FiresOf(d.fires, d.jobs[k].id) + if k in due then [d.jobs[k].nextFire.value] else []
    decreases |due|
  {
    if due == [] {
      assert FiresOf(d.fires, d.jobs[k].id) + [] == FiresOf(d.fires, d.jobs[k].id);
    } else {
      var e := Fire(calendar, d, due[0], now);
      FireEffect(calendar, d, due[0], now);
      assert k != due[0] ==> d.jobs[k].id != d.jobs[due[0]].id;
      assert due[0] !in due[1..];
      FireEachFires(calendar, e, due[1..], now, k);
      OneFireMore(d, e, due, k, d.jobs[due[0]].nextFire.value);
    }
  }

  lemma OneFireMore(d: DaemonState, e: DaemonState, due: seq<nat>, k: nat, fire: Instant)
    requires due != [] && due[0] < |d.jobs| && k < |d.jobs| && due[0] !in due[1..]
    requires d.jobs[due[0]].nextFire == Some(fire) && (k != due[0] ==> d.jobs[k].id != d.jobs[due[0]].id)
    requires e.fires == d.fires[d.jobs[due[0]].id := FiresOf(d.fires, d.jobs[due[0]].id) + [fire]]
    ensures k in due <==> k == due[0] || k in due[1..]
    ensures FiresOf(e.fires, d.jobs[k].id) == FiresOf(d.fires, d.jobs[k].id) + if k == due[0] then [fire] else []
  {
    assert due == [due[0]] + due[1..];
    if k != due[0] {
      assert FiresOf(d.fires, d.jobs[k].id) + [] == FiresOf(d.fires, d.jobs[k].id);
    }
  }

  /** The manifest loaded, its schedule is switched on, nobody paused the job, and its planned instant has come. */
  predicate HasCome(job: Job, now: Instant) {
    && job.error.None? && job.schedule.Some? && job.schedule.value.enabled && !job.state.paused
    && job.nextFire.Some? && job.nextFire.value <= now
  }

  /** A tick of a daemon that is not stopping fires every job whose time has come, at the instant planned, and no other. */
  lemma TickFiresExactly(calendar: Calendar, d: DaemonState, now: Instant, k: nat)
    requires Sound(d) && Advances(calendar) && k < |d.jobs|
    ensures FiresOf(Apply(calendar, d, Tick(now)).fires, d.jobs[k].id) ==
            FiresOf(d.fires, d.jobs[k].id) + if !d.stopping && HasCome(d.jobs[k], now) then [d.jobs[k].nextFire.value] else []
  {
    var due := Due(d.jobs, now, 0);
    assert forall n :: 0 <= n < |due| ==> due[n] in due;
    if d.stopping {
      assert FiresOf(d.fires, d.jobs[k].id) + [] == FiresOf(d.fires, d.jobs[k].id);
    } else {
      FireEachFires(calendar, d, due, now, k);
    }
  }

  // ----- what starts a run -----

  /** Everything a schedule needs to start the job. */
  predicate MayStart(job: Job) {
    job.error.None? && job.schedule.Some? && job.schedule.value.enabled && !job.state.paused
  }

  /** Some job with the ID has what the step needs to start it. */
  predicate HasCause(d: DaemonState, step: Step, id: string) {
    match step
    case Tick(now) => !d.stopping && exists i :: 0 <= i < |d.jobs| && d.jobs[i].id == id && HasCome(d.jobs[i], now)
    case End(_, _) => !d.stopping && exists i :: 0 <= i < |d.jobs| && d.jobs[i].id == id && d.jobs[i].queued && MayStart(d.jobs[i])
    case Trigger(triggered) =>
      triggered == id && d.running < d.limit
      && exists i :: 0 <= i < |d.jobs| && d.jobs[i].id == id && d.jobs[i].error.None? && !d.jobs[i].running
    case _ => false
  }

  lemma {:induction false} FireEachStarts(calendar: Calendar, d: DaemonState, due: seq<nat>, now: Instant, id: string)
    requires forall n :: 0 <= n < |due| ==> due[n] < |d.jobs|
    requires forall n :: 0 <= n < |due| ==> d.jobs[due[n]].id != id
    ensures FireEach(calendar, d, due, now).runs[id] == d.runs[id]
    decreases |due|
  {
    if due != [] {
      FireActsExactly(calendar, d, due[0], now);
      var e := Fire(calendar, d, due[0], now);
      FireKeepsId(calendar, d, due[0], now);
      forall n | 0 <= n < |due[1..]| ensures e.jobs[due[1..][n]].id != id {
        assert d.jobs[due[n + 1]].id != id;
      }
      FireEachStarts(calendar, e, due[1..], now, id);
    }
  }

  lemma FireKeepsId(calendar: Calendar, d: DaemonState, i: nat, now: Instant)
    requires i < |d.jobs|
    ensures Fire(calendar, d, i, now).jobs[i].id == d.jobs[i].id
  {
    FiredJob(d, i, now);
    PlannedFlags(calendar, Fired(d, i, now), i, now);
  }

  lemma {:induction false} StartWaitingStarts(d: DaemonState, id: string)
    requires forall i :: 0 <= i < |d.jobs| && IsWaiting(d.jobs[i]) ==> d.jobs[i].id != id
    ensures StartWaiting(d).runs[id] == d.runs[id]
    decreases d.limit - d.running
  {
    if d.running < d.limit && FirstWaiting(d.jobs, 0).Some? {
      var i := FirstWaiting(d.jobs, 0).value;
      var e := Start(d, i);
      forall k | 0 <= k < |e.jobs| && IsWaiting(e.jobs[k]) ensures e.jobs[k].id != id {
        assert k != i && e.jobs[k] == d.jobs[k];
      }
      StartWaitingStarts(e, id);
    }
  }

  lemma EndStarts(d: DaemonState, ended: string, outcome: RunOutcome, id: string)
    requires forall i :: 0 <= i < |d.jobs| && d.jobs[i].id == id ==> !(d.jobs[i].queued && MayStart(d.jobs[i]))
    ensures Finished(d, ended, outcome).runs[id] <= d.runs[id]
  {
    var left := NoteEnd(d, ended, outcome);
    forall i | 0 <= i < |left.jobs| && IsWaiting(left.jobs[i]) ensures left.jobs[i].id != id {
      assert d.jobs[i].id == left.jobs[i].id;
    }
    StartWaitingStarts(left, id);
  }

  lemma TickStarts(calendar: Calendar, d: DaemonState, now: Instant, id: string)
    requires forall i :: 0 <= i < |d.jobs| && d.jobs[i].id == id ==> !HasCome(d.jobs[i], now)
    ensures FireDue(calendar, d, now).runs[id] == d.runs[id]
  {
    var due := Due(d.jobs, now, 0);
    assert forall n :: 0 <= n < |due| ==> due[n] in due;
    if !d.stopping {
      FireEachStarts(calendar, d, due, now, id);
    }
  }

  lemma OtherStepsStartNothing(calendar: Calendar, d: DaemonState, step: Step)
    requires !step.Tick? && !step.End? && !step.Trigger?
    ensures Apply(calendar, d, step).runs <= d.runs
  {
  }

  lemma TriggerStarts(d: DaemonState, id: string, triggered: string)
    requires DaemonSteps.Trigger(d, triggered).0.runs[id] > d.runs[id]
    ensures triggered == id && d.running < d.limit
    ensures exists i :: 0 <= i < |d.jobs| && d.jobs[i].id == id && d.jobs[i].error.None? && !d.jobs[i].running
  {
    assert TriggerAnswer(d, triggered).Done?;
  }

  /**
   * No run starts without its cause: a job whose time has come, a waiting fire of a job that may start, or a trigger of
   * an idle job below the limit. So a job that carries an error at that moment never starts, and a paused or a
   * switched-off one only when it is triggered.
   */
  lemma NothingStartsWithoutCause(calendar: Calendar, d: DaemonState, step: Step, id: string)
    requires Apply(calendar, d, step).runs[id] > d.runs[id]
    ensures HasCause(d, step, id)
    ensures exists i :: 0 <= i < |d.jobs| && d.jobs[i].id == id && d.jobs[i].error.None?
  {
    match step {
      case Tick(now) => if !HasCause(d, step, id) { TickStarts(calendar, d, now, id); }
      case End(ended, outcome) => if !HasCause(d, step, id) { EndWithoutCause(d, ended, outcome, id); }
      case Trigger(triggered) => TriggerStarts(d, id, triggered);
      case _ => OtherStepsStartNothing(calendar, d, step);
    }
  }

  lemma EndWithoutCause(d: DaemonState, ended: string, outcome: RunOutcome, id: string)
    requires !HasCause(d, End(ended, outcome), id)
    ensures Finished(d, ended, outcome).runs[id] <= d.runs[id]
  {
    if !d.stopping {
      EndStarts(d, ended, outcome, id);
    }
  }

  /** In no history does a step start a run of a job that carries an error at that moment. */
  lemma BrokenJobsNeverStart(calendar: Calendar, trace: seq<DaemonState>, steps: seq<Step>, k: nat, id: string)
    requires IsHistory(calendar, trace, steps) && k < |steps|
    requires forall i :: 0 <= i < |trace[k].jobs| && trace[k].jobs[i].id == id ==> trace[k].jobs[i].error.Some?
    ensures trace[k + 1].runs[id] <= trace[k].runs[id]
  {
    if trace[k + 1].runs[id] > trace[k].runs[id] {
      NothingStartsWithoutCause(calendar, trace[k], steps[k], id);
    }
  }

  /** A run that ended leaves no idle job that may start with a waiting fire, unless the daemon is full or stopping. */
  lemma EndLeavesNoneWaiting(d: DaemonState, ended: string, outcome: RunOutcome)
    ensures var e := Finished(d, ended, outcome);
            !e.stopping && e.running < e.limit ==>
              forall i :: 0 <= i < |e.jobs| ==> !(e.jobs[i].queued && !e.jobs[i].running && MayStart(e.jobs[i]))
  {
    EndWakesWaiting(d, ended, outcome);
    var e := Finished(d, ended, outcome);
    if HasRoom(e) {
      forall i | 0 <= i < |e.jobs| ensures !(e.jobs[i].queued && !e.jobs[i].running && MayStart(e.jobs[i])) {
        assert !IsWaiting(e.jobs[i]);
      }
    }
  }

  // ----- commands -----

  /** The first check that fails decides the answer to a trigger. */
  lemma TriggerAnswersExactly(d: DaemonState, i: nat)
    requires i < |d.jobs| && DistinctIds(d.jobs)
    ensures var job, answer := d.jobs[i], TriggerAnswer(d, d.jobs[i].id);
            if job.error.Some? then answer == CannotRun
            else if job.running then answer == AlreadyRunning
            else if d.running >= d.limit then answer == AtLimit
            else answer == Done
    ensures forall id :: id !in Ids(d.jobs) <==> TriggerAnswer(d, id) == UnknownJob
  {
    FindsAt(d.jobs, i);
    forall id ensures id !in Ids(d.jobs) <==> TriggerAnswer(d, id) == UnknownJob {
      if Find(d.jobs, id).Some? {
        assert d.jobs[Find(d.jobs, id).value].id in Ids(d.jobs);
      }
    }
  }

  lemma FindsAt(jobs: seq<Job>, i: nat)
    requires i < |jobs| && DistinctIds(jobs)
    ensures Find(jobs, jobs[i].id) == Some(i)
  {
    var found := Find(jobs, jobs[i].id).value;
    assert found == i;
  }

  lemma HoldSets(calendar: Calendar, d: DaemonState, i: nat, now: Instant, paused: bool)
    requires Sound(d) && i < |d.jobs| && Find(d.jobs, d.jobs[i].id) == Some(i)
    ensures var id, e := d.jobs[i].id, DaemonSteps.Hold(calendar, d, d.jobs[i].id, paused, now).0;
            && e.states == d.states[id := StateOf(d.states, id).(paused := paused)] && e.saved == Written(e.states)
  {
    assert IsKept(d, d.jobs[i]);
  }

  lemma WrittenKeepsPaused(states: States, id: string)
    ensures StateOf(Written(states), id).paused == StateOf(states, id).paused
  {
  }

  /** Pausing and resuming set the flag of the one job, in memory and in the file; an unknown ID changes nothing. */
  lemma HoldsAsAsked(calendar: Calendar, d: DaemonState, id: string, now: Instant, paused: bool)
    requires Sound(d)
    ensures var e := Apply(calendar, d, if paused then Pause(id, now) else Resume(id, now));
            if id !in Ids(d.jobs) then e == d
            else && StateOf(e.states, id) == StateOf(d.states, id).(paused := paused)
                 && StateOf(e.saved, id).paused == paused
                 && forall other :: other != id ==> StateOf(e.states, other) == StateOf(d.states, other)
  {
    var found := Find(d.jobs, id);
    if found.Some? {
      assert d.jobs[found.value].id in Ids(d.jobs);
      HoldSets(calendar, d, found.value, now, paused);
      WrittenKeepsPaused(d.states[id := StateOf(d.states, id).(paused := paused)], id);
    }
  }

  /** A job held or let go is planned anew: it waits for no instant while it is held, and for its next one afterwards. */
  lemma HoldsPlanAnew(calendar: Calendar, d: DaemonState, i: nat, now: Instant, paused: bool)
    requires i < |d.jobs| && DistinctIds(d.jobs)
    ensures var job := d.jobs[i];
            var e := Apply(calendar, d, if paused then Pause(job.id, now) else Resume(job.id, now));
            && |e.jobs| == |d.jobs| && (forall k :: 0 <= k < |d.jobs| && k != i ==> e.jobs[k] == d.jobs[k])
            && e.jobs[i] == Plan(calendar, job.(state := job.state.(paused := paused)), now, false)
            && (paused ==> e.jobs[i].nextFire == None)
  {
    FindsAt(d.jobs, i);
  }

  /** The first signal lets the runs end, and only a second one gives up on them. */
  lemma SecondSignalExits(calendar: Calendar, d: DaemonState)
    requires !d.stopping && !d.exiting
    ensures var once := Apply(calendar, d, Step.Signal); once.stopping && !once.exiting
    ensures var twice := Apply(calendar, Apply(calendar, d, Step.Signal), Step.Signal); twice.stopping && twice.exiting && twice.runs == d.runs
  {
  }

  // ----- what is watched -----

  /** Removing a watched manifest takes its jobs and the states of jobs that are gone, and nothing else. */
  lemma UnwatchDropsExactly(calendar: Calendar, d: DaemonState, path: string)
    ensures var e := Apply(calendar, d, Unwatch(path));
            if path !in Paths(d.registry) then e == d
            else && Paths(e.registry) == Paths(d.registry) - {path}
                 && (forall job :: job in e.jobs <==> job in d.jobs && job.manifest != path)
                 && (forall id :: id in e.states <==> id in d.states && id in Ids(e.jobs))
                 && e.runs == d.runs
  {
    OthersAre(d.jobs, path);
  }

  lemma OthersAre(jobs: seq<Job>, path: string)
    ensures forall job :: job in Others(jobs, path) <==> job in jobs && job.manifest != path
  {
    forall job | job in jobs ensures job.manifest in Manifests(jobs) {
      var i :| 0 <= i < |jobs| && jobs[i] == job;
      assert jobs[i].manifest in Manifests(jobs);
    }
  }

  /** A new list drops the jobs of manifests that are no longer on it and leaves the others as they are. */
  lemma RelistKeepsExactly(calendar: Calendar, d: DaemonState, registry: seq<Watched>)
    ensures var e := Apply(calendar, d, Relist(registry));
            && e.registry == registry && e.runs == d.runs && e.states == d.states
            && forall job :: job in e.jobs <==> job in d.jobs && exists i :: 0 <= i < |registry| && registry[i].path == job.manifest
  {
    forall path ensures path in Paths(registry) <==> exists i :: 0 <= i < |registry| && registry[i].path == path {
    }
  }

  /** The new jobs stand behind those of the other manifests, which keep their places. */
  ghost predicate Installs(before: seq<Job>, after: seq<Job>, path: string, read: seq<Job>) {
    && |after| >= |read|
    && (forall i :: 0 <= i < |read| ==> after[|after| - |read| + i].id == read[i].id && after[|after| - |read| + i].schedule == read[i].schedule)
    && (forall job :: job in after[..|after| - |read|] <==> job in before && job.manifest != path)
  }

  lemma InstallInstalls(calendar: Calendar, d: DaemonState, path: string, read: seq<Job>, now: Instant)
    ensures Installs(d.jobs, Install(calendar, d, path, read, now).jobs, path, read)
  {
    OthersAre(d.jobs, path);
    forall i | 0 <= i < |read|
      ensures Replanned(calendar, Carried(d.jobs, read[i]), now).id == read[i].id
      ensures Replanned(calendar, Carried(d.jobs, read[i]), now).schedule == read[i].schedule
    {
      CarryKeeps(calendar, d.jobs, read[i], now);
    }
    JoinInstalls(d.jobs, Others(d.jobs, path), CarriedOver(calendar, d.jobs, read, now), path, read);
  }

  lemma JoinInstalls(before: seq<Job>, others: seq<Job>, carried: seq<Job>, path: string, read: seq<Job>)
    requires |carried| == |read| && forall i :: 0 <= i < |read| ==> carried[i].id == read[i].id && carried[i].schedule == read[i].schedule
    requires forall job :: job in others <==> job in before && job.manifest != path
    ensures Installs(before, others + carried, path, read)
  {
    assert (others + carried)[..|others|] == others;
  }

  /** An ID the manifest would give a job belongs to another manifest, or a job has no schedule. */
  predicate IsUnwelcome(jobs: seq<Job>, path: string, read: seq<Job>) {
    || (exists job :: job in jobs && job.manifest != path && job.id in Ids(read))
    || (exists i :: 0 <= i < |read| && read[i].schedule.None?)
  }

  /** An admitted manifest stands last on the list and gets the jobs it describes; a refused one changes nothing. */
  lemma WatchInstallsExactly(calendar: Calendar, d: DaemonState, watched: Watched, files: Files, now: Instant)
    ensures var read, e := JobsOf(watched, files, d.states), Apply(calendar, d, Watch(watched, files, now));
            if IsUnwelcome(d.jobs, watched.path, read) then e == d
            else && e.registry == WithoutPath(d.registry, watched.path) + [watched]
                 && Installs(d.jobs, e.jobs, watched.path, read)
  {
    OthersAre(d.jobs, watched.path);
    WatchAnswers(calendar, d, watched, files, now);
    InstallInstalls(calendar, d.(registry := WithoutPath(d.registry, watched.path) + [watched]), watched.path, JobsOf(watched, files, d.states), now);
  }

  lemma WatchAnswers(calendar: Calendar, d: DaemonState, watched: Watched, files: Files, now: Instant)
    ensures var read := JobsOf(watched, files, d.states);
            var taken := exists job :: job in Others(d.jobs, watched.path) && job.id in Ids(read);
            Apply(calendar, d, Watch(watched, files, now)) ==
            if taken || (exists i :: 0 <= i < |read| && read[i].schedule.None?) then d
            else Install(calendar, d.(registry := WithoutPath(d.registry, watched.path) + [watched]), watched.path, read, now)
  {
    TakenIds(Others(d.jobs, watched.path), JobsOf(watched, files, d.states));
  }

  lemma InstalledAre(calendar: Calendar, d: DaemonState, path: string, read: seq<Job>, now: Instant)
    ensures var e := Install(calendar, d, path, read, now);
            && |e.jobs| == |Others(d.jobs, path)| + |read| && e.jobs[..|Others(d.jobs, path)|] == Others(d.jobs, path)
            && forall i :: 0 <= i < |read| ==> e.jobs[|Others(d.jobs, path)| + i] == Replanned(calendar, Carried(d.jobs, read[i]), now)
                                               && e.jobs[|Others(d.jobs, path)| + i].id == read[i].id
                                               && e.jobs[|Others(d.jobs, path)| + i].schedule == read[i].schedule
  {
    forall i | 0 <= i < |read|
      ensures Replanned(calendar, Carried(d.jobs, read[i]), now).id == read[i].id
      ensures Replanned(calendar, Carried(d.jobs, read[i]), now).schedule == read[i].schedule
    {
      CarryKeeps(calendar, d.jobs, read[i], now);
    }
  }

  lemma CarryKeeps(calendar: Calendar, jobs: seq<Job>, read: Job, now: Instant)
    ensures var job := Replanned(calendar, Carried(jobs, read), now); job.id == read.id && job.schedule == read.schedule
  {
  }

  lemma TakenIds(others: seq<Job>, read: seq<Job>)
    ensures (forall o :: o in OtherIds(others) ==> o !in Ids(read)) <==> !exists job :: job in others && job.id in Ids(read)
  {
    if exists job :: job in others && job.id in Ids(read) {
      var job :| job in others && job.id in Ids(read);
      var i :| 0 <= i < |others| && others[i] == job;
      assert others[i].id in Ids(others);
    }
    if o :| o in OtherIds(others) && o in Ids(read) {
      var i :| 0 <= i < |others| && others[i].id == o;
      assert others[i] in others;
    }
  }

  // ----- order -----

  /** Leaving an entry out keeps the others in their order. */
  lemma {:induction false} WithoutPathKeepsOrder(one: seq<Watched>, other: seq<Watched>, path: string)
    ensures WithoutPath(one + other, path) == WithoutPath(one, path) + WithoutPath(other, path)
  {
    if one == [] {
      assert one + other == other;
    } else {
      assert (one + other)[1..] == one[1..] + other;
      WithoutPathKeepsOrder(one[1..], other, path);
    }
  }

  lemma {:induction false} JobsInKeepOrder(one: seq<Job>, other: seq<Job>, paths: set<string>)
    ensures JobsIn(one + other, paths) == JobsIn(one, paths) + JobsIn(other, paths)
  {
    if one == [] {
      assert one + other == other;
    } else {
      assert (one + other)[1..] == one[1..] + other;
      JobsInKeepOrder(one[1..], other, paths);
    }
  }

  /** A daemon opens with the jobs of the first watched manifest first. */
  lemma {:induction false} BuildKeepsOrder(one: seq<Watched>, other: seq<Watched>, files: Files, states: States)
    ensures Build(one + other, files, states) == Build(one, files, states) + Build(other, files, states)
  {
    if one == [] {
      assert one + other == other;
    } else {
      assert (one + other)[1..] == one[1..] + other && (one + other)[0] == one[0];
      BuildKeepsOrder(one[1..], other, files, states);
      Sequences.Joined(JobsOf(one[0], files, states), Build(one[1..], files, states), Build(other, files, states));
    }
  }

  // ----- reading a manifest again -----

  /** The job as it is read anew, with the flags of the one it replaces, and its planned fire when the schedule stayed. */
  ghost predicate Continues(calendar: Calendar, before: Option<Job>, read: Job, job: Job, now: Instant) {
    && job == read.(running := job.running, queued := job.queued, nextFire := job.nextFire)
    && (before.None? ==> !job.running && !job.queued)
    && (before.Some? ==> job.running == before.value.running && job.queued == before.value.queued)
    && (before.Some? && before.value.schedule == read.schedule && before.value.nextFire.Some? ==> job.nextFire == before.value.nextFire)
    && (before.None? || before.value.schedule != read.schedule ==> job.nextFire == Plan(calendar, read, now, false).nextFire)
  }

  /** A job that waits for its instant, or is due, when its manifest is read again goes on waiting for the same one. */
  lemma RereadContinues(calendar: Calendar, d: DaemonState, watched: Watched, files: Files, now: Instant, i: nat)
    requires DistinctIds(d.jobs) && i < |JobsOf(watched, files, d.states)|
    ensures var read, e := JobsOf(watched, files, d.states)[i], Apply(calendar, d, Reread(watched, files, now));
            var others := |e.jobs| - |JobsOf(watched, files, d.states)|;
            && others >= 0
            && (forall k :: 0 <= k < |d.jobs| && d.jobs[k].id == read.id ==> Continues(calendar, Some(d.jobs[k]), read, e.jobs[others + i], now))
            && (read.id !in Ids(d.jobs) ==> Continues(calendar, None, read, e.jobs[others + i], now))
  {
    InstallContinues(calendar, d, watched.path, JobsOf(watched, files, d.states), now, i);
  }

  lemma InstallContinues(calendar: Calendar, d: DaemonState, path: string, read: seq<Job>, now: Instant, i: nat)
    requires DistinctIds(d.jobs) && i < |read| && read[i].nextFire.None? && !read[i].running && !read[i].queued
    ensures var e := Install(calendar, d, path, read, now);
            var others := |e.jobs| - |read|;
            && others >= 0
            && (forall k :: 0 <= k < |d.jobs| && d.jobs[k].id == read[i].id ==> Continues(calendar, Some(d.jobs[k]), read[i], e.jobs[others + i], now))
            && (read[i].id !in Ids(d.jobs) ==> Continues(calendar, None, read[i], e.jobs[others + i], now))
  {
    InstalledAre(calendar, d, path, read, now);
    CarriedContinues(calendar, d.jobs, read[i], now);
  }

  lemma CarriedContinues(calendar: Calendar, jobs: seq<Job>, read: Job, now: Instant)
    requires DistinctIds(jobs) && read.nextFire.None? && !read.running && !read.queued
    ensures var job := Replanned(calendar, Carried(jobs, read), now);
            && (forall k :: 0 <= k < |jobs| && jobs[k].id == read.id ==> Continues(calendar, Some(jobs[k]), read, job, now))
            && (read.id !in Ids(jobs) ==> Continues(calendar, None, read, job, now))
  {
    forall k | 0 <= k < |jobs| && jobs[k].id == read.id ensures Find(jobs, read.id) == Some(k) {
      FindsAt(jobs, k);
    }
    if Find(jobs, read.id).Some? {
      assert jobs[Find(jobs, read.id).value].id in Ids(jobs);
    }
  }
}
