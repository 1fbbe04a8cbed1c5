/** The daemon itself: one object that every event changes in place. */
module Daemons {
  import opened Outcomes
  import opened Jobs
  import opened DaemonSteps

  /** The watch list, one entry per file. */
  class Registry {
    var manifests: seq<Watched>

    constructor (manifests: seq<Watched>)
      ensures this.manifests == manifests
    {
      this.manifests := manifests;
    }

    /** The new entry takes the last place; an older one for its path leaves. */
    method Add(watched: Watched) returns (added: bool)
      modifies this
      ensures added <==> watched.path !in Paths(old(manifests))
      ensures manifests == WithoutPath(old(manifests), watched.path) + [watched]
    {
      added := watched.path !in Paths(manifests);
      manifests := WithoutPath(manifests, watched.path);
      manifests := manifests + [watched];
    }

    method Remove(path: string) returns (removed: bool)
      modifies this
      ensures removed <==> path in Paths(old(manifests))
      ensures manifests == WithoutPath(old(manifests), path)
    {
      var before := |manifests|;
      manifests := WithoutPath(manifests, path);
      removed := before != |manifests|;
    }
  }

  /** The state map, and what the state file says. */
  class StateStore {
    var jobs: States
    var file: States

    constructor (file: States)
      ensures this.jobs == file && this.file == file
    {
      this.jobs := file;
      this.file := file;
    }

    method Put(job: string, state: JobState)
      modifies this`jobs
      ensures jobs == old(jobs)[job := state]
    {
      jobs := jobs[job := state];
    }

    method Keep(ids: set<string>)
      modifies this`jobs
      ensures jobs == KeepOnly(old(jobs), ids)
    {
      jobs := map id | id in jobs && id in ids :: jobs[id];
    }

    /** Writes every state with its last fire cut to the second. */
    method Save()
      modifies this`file
      ensures file == Written(jobs)
    {
      file := map id | id in jobs :: WrittenState(jobs[id]);
    }
  }

  class Daemon {
    const calendar: Calendar
    var registry: Registry
    const states: StateStore
    var jobs: seq<Job>
    var running: nat
    const limit: nat
    var stopping: bool
    var exiting: bool
    /** The runs whose end the daemon has not handled yet. */
    ghost var runs: multiset<string>
    /** Every fire since a job's state was last dropped. */
    ghost var fires: map<string, seq<Instant>>

    ghost function View(): DaemonState
      reads this, registry, states
    {
      DaemonState(registry.manifests, states.jobs, states.file, jobs, running, limit, stopping, exiting, runs, fires)
    }

    /** Opens with what the files hold; only here may a fire that was passed still run. */
    constructor (calendar: Calendar, manifests: seq<Watched>, files: Files, file: States, limit: nat, now: Instant,
                 ghost fires: map<string, seq<Instant>>)
      ensures View() == Open(calendar, manifests, files, file, limit, fires, now)
      ensures this.calendar == calendar && fresh(registry) && fresh(states)
    {
      this.calendar := calendar;
      this.registry := new Registry(manifests);
      this.states := new StateStore(file);
      this.running := 0;
      this.limit := if limit == 0 then 1 else limit;
      this.stopping, this.exiting := false, false;
      this.runs, this.fires := multiset{}, fires;
      this.jobs := [];
      new;
      jobs := BuildJobs(manifests, files, states.jobs);
      PlanAll(now, true);
    }

    static method BuildJobs(manifests: seq<Watched>, files: Files, states: States) returns (r: seq<Job>)
      ensures r == Build(manifests, files, states)
    {
      r := [];
      var i := 0;
      while i < |manifests|
        invariant i <= |manifests|
        invariant r + Build(manifests[i..], files, states) == Build(manifests, files, states)
      {
        assert manifests[i..][0] == manifests[i] && manifests[i..][1..] == manifests[i + 1..];
        JoinedJobs(r, JobsOf(manifests[i], files, states), Build(manifests[i + 1..], files, states));
        r := r + JobsOf(manifests[i], files, states);
        i := i + 1;
      }
    }

    // ----- one job -----

    method PlanJob(index: nat, now: Instant, late: bool)
      requires index < |jobs|
      modifies this`jobs
      ensures View() == DaemonSteps.PlanJob(calendar, old(View()), index, now, late)
    {
      jobs := jobs[index := Plan(calendar, jobs[index], now, late)];
    }

    method PlanAll(now: Instant, late: bool)
      modifies this`jobs
      ensures |jobs| == |old(jobs)| && forall i :: 0 <= i < |jobs| ==> jobs[i] == Plan(calendar, old(jobs)[i], now, late)
    {
      var i := 0;
      while i < |jobs|
        invariant i <= |jobs| == |old(jobs)|
        invariant forall k :: 0 <= k < i ==> jobs[k] == Plan(calendar, old(jobs)[k], now, late)
        invariant forall k :: i <= k < |jobs| ==> jobs[k] == old(jobs)[k]
      {
        PlanJob(i, now, late);
        i := i + 1;
      }
    }

    method SaveState(index: nat)
      requires index < |jobs|
      modifies states
      ensures View() == DaemonSteps.SaveState(old(View()), index)
    {
      states.Put(jobs[index].id, jobs[index].state);
      states.Save();
    }

    method Start(index: nat)
      requires index < |jobs|
      modifies this`jobs, this`running, this`runs
      ensures View() == DaemonSteps.Start(old(View()), index)
    {
      var job := jobs[index];
      jobs := jobs[index := job.(running := true, queued := false)];
      running := running + 1;
      runs := runs + multiset{job.id};
    }

    /** A second fire adds nothing to one that waits. */
    method Enqueue(index: nat)
      requires index < |jobs|
      modifies this`jobs
      ensures View() == DaemonSteps.Queue(old(View()), index)
    {
      var job := jobs[index];
      if job.queued {
        assert job.(queued := true) == job;
        assert jobs[index := job] == jobs;
        return;
      }
      jobs := jobs[index := job.(queued := true)];
    }

    // ----- fires -----

    method Fire(index: nat, now: Instant)
      requires index < |jobs|
      modifies this`jobs, this`running, this`runs, this`fires, states
      ensures View() == DaemonSteps.Fire(calendar, old(View()), index, now)
    {
      var job := jobs[index];
      var fire := if job.nextFire.Some? then job.nextFire.value else now;
      var action := ActionFor(running, limit, job);
      jobs := jobs[index := job.(state := job.state.(lastFire := Some(fire)))];
      fires := fires[job.id := FiresOf(fires, job.id) + [fire]];
      assert View() == NoteFire(old(View()), index, fire);
      match action {
        case StartNow => Start(index);
        case Wait => Enqueue(index);
        case Drop =>
      }
      assert View() == Act(NoteFire(old(View()), index, fire), index, action);
      SaveState(index);
      PlanJob(index, now, false);
    }

    method FireDue(now: Instant)
      modifies this`jobs, this`running, this`runs, this`fires, states
      ensures View() == DaemonSteps.FireDue(calendar, old(View()), now)
    {
      if stopping {
        return;
      }
      var due := Due(jobs, now, 0);
      assert forall k :: 0 <= k < |due| ==> due[k] in due;
      var i := 0;
      ghost var fired := FireEach(calendar, View(), due, now);
      assert due[0..] == due;
      while i < |due|
        invariant i <= |due| && |jobs| == |old(jobs)|
        invariant FireEach(calendar, View(), due[i..], now) == fired
      {
        FireNext(calendar, View(), due, i, now);
        Fire(due[i], now);
        i := i + 1;
      }
      assert due[i..] == [];
    }

    // ----- the end of a run -----

    method StartQueued()
      modifies this`jobs, this`running, this`runs
      ensures View() == DaemonSteps.StartQueued(old(View()))
    {
      if stopping {
        return;
      }
      while running < limit
        invariant !stopping && StartWaiting(View()) == StartWaiting(old(View()))
        decreases limit - running
      {
        var waiting := FirstWaiting(jobs, 0);
        if waiting.None? {
          return;
        }
        Start(waiting.value);
      }
    }

    method Finished(id: string, outcome: RunOutcome)
      modifies this`jobs, this`running, this`runs, states
      ensures View() == DaemonSteps.Finished(old(View()), id, outcome)
    {
      RecordEnd(id, outcome);
      StartQueued();
    }

    /** Counts the run out, and notes its outcome when the job is still held. */
    method RecordEnd(id: string, outcome: RunOutcome)
      modifies this`jobs, this`running, this`runs, states
      ensures View() == NoteEnd(old(View()), id, outcome)
    {
      running := if running == 0 then 0 else running - 1;
      runs := runs - multiset{id};
      ghost var left := View();
      var found := Find(jobs, id);
      if found.Some? {
        var job := jobs[found.value];
        var ended := job.(running := false, state := job.state.(lastRun := outcome.directory, lastStatus := outcome.status));
        jobs := jobs[found.value := ended];
        assert View() == WithJob(left, found.value, ended);
        SaveState(found.value);
      }
    }

    // ----- commands -----

    method Hold(id: string, paused: bool, now: Instant) returns (response: Response)
      modifies this`jobs, states
      ensures (View(), response) == DaemonSteps.Hold(calendar, old(View()), id, paused, now)
    {
      var found := Find(jobs, id);
      if found.None? {
        return UnknownJob;
      }
      var job := jobs[found.value];
      jobs := jobs[found.value := job.(state := job.state.(paused := paused))];
      SaveState(found.value);
      PlanJob(found.value, now, false);
      response := Done;
    }

    method Trigger(id: string) returns (response: Response)
      modifies this`jobs, this`running, this`runs
      ensures (View(), response) == DaemonSteps.Trigger(old(View()), id)
    {
      var found := Find(jobs, id);
      if found.None? {
        return UnknownJob;
      }
      var job := jobs[found.value];
      if job.error.Some? {
        return CannotRun;
      }
      if job.running {
        return AlreadyRunning;
      }
      if running >= limit {
        return AtLimit;
      }
      Start(found.value);
      response := Done;
    }

    method Add(watched: Watched, files: Files, now: Instant) returns (response: Response)
      modifies this`jobs, registry
      ensures (View(), response) == DaemonSteps.Add(calendar, old(View()), watched, files, now)
    {
      var latest := JobsOf(watched, files, states.jobs);
      var admitted := Admit(latest, OtherIds(Others(jobs, watched.path)));
      if admitted.Err? {
        return Refused(admitted.error);
      }
      var _ := registry.Add(watched);
      Install(watched.path, latest, now);
      response := Done;
    }

    method Remove(path: string) returns (response: Response)
      modifies this`jobs, this`fires, registry, states
      ensures (View(), response) == DaemonSteps.Remove(old(View()), path)
    {
      ghost var before := registry.manifests;
      var removed := registry.Remove(path);
      if !removed {
        UnwatchedStays(before, path);
        return NotWatched;
      }
      jobs := Others(jobs, path);
      states.Keep(Ids(jobs));
      states.Save();
      fires := KeepOnly(fires, Ids(jobs));
      response := Done;
    }

    /** Swaps one path's jobs for newly read ones, which take over flags, waiting fires and unchanged plans. */
    method Install(path: string, latest: seq<Job>, now: Instant)
      modifies this`jobs
      ensures View() == DaemonSteps.Install(calendar, old(View()), path, latest, now)
    {
      var carried := CarryOver(latest);
      var others := Others(jobs, path);
      jobs := others + carried;
      PlanFrom(|others|, now);
      InstalledJobs(calendar, old(jobs), others, latest, carried, jobs, now);
    }

    /** Gives each job that was read the flag, the waiting fire and the planned fire it had. */
    method CarryOver(latest: seq<Job>) returns (carried: seq<Job>)
      ensures |carried| == |latest| && forall k :: 0 <= k < |latest| ==> carried[k] == Carried(jobs, latest[k])
    {
      carried := [];
      var i := 0;
      while i < |latest|
        invariant i <= |latest| && |carried| == i
        invariant forall k :: 0 <= k < i ==> carried[k] == Carried(jobs, latest[k])
      {
        carried := carried + [Carried(jobs, latest[i])];
        i := i + 1;
      }
    }

    /** Plans the jobs from `first` on that have no planned fire. */
    method PlanFrom(first: nat, now: Instant)
      requires first <= |jobs|
      modifies this`jobs
      ensures |jobs| == |old(jobs)| && jobs[..first] == old(jobs)[..first]
      ensures forall k :: first <= k < |jobs| ==> jobs[k] == Replanned(calendar, old(jobs)[k], now)
    {
      var i := first;
      while i < |jobs|
        invariant first <= i <= |jobs| == |old(jobs)|
        invariant forall k :: 0 <= k < first || i <= k < |jobs| ==> jobs[k] == old(jobs)[k]
        invariant forall k :: first <= k < i ==> jobs[k] == Replanned(calendar, old(jobs)[k], now)
      {
        if jobs[i].nextFire.None? {
          jobs := jobs[i := Plan(calendar, jobs[i], now, false)];
        }
        i := i + 1;
      }
    }

    method Reload(watched: Watched, files: Files, now: Instant)
      modifies this`jobs
      ensures View() == DaemonSteps.Reread(calendar, old(View()), watched, files, now)
    {
      Install(watched.path, JobsOf(watched, files, states.jobs), now);
    }

    /** Reads the list again, when it can be read, and then each manifest. */
    method ReloadAll(listed: Option<seq<Watched>>, files: Files, now: Instant) returns (count: nat)
      modifies this`jobs, this`registry
      ensures count == |registry.manifests|
      ensures var list := if listed.Some? then listed.value else old(registry.manifests);
              View() == RereadEach(calendar, Relist(old(View()), list), list, files, now)
    {
      if listed.Some? {
        registry := new Registry(listed.value);
      }
      var watched := registry.manifests;
      jobs := JobsIn(jobs, Paths(watched));
      ghost var relisted := View();
      var i := 0;
      while i < |watched|
        invariant i <= |watched| && registry.manifests == watched
        invariant RereadEach(calendar, View(), watched[i..], files, now) == RereadEach(calendar, relisted, watched, files, now)
      {
        assert watched[i..][0] == watched[i] && watched[i..][1..] == watched[i + 1..];
        Reload(watched[i], files, now);
        i := i + 1;
      }
      count := |watched|;
    }

    // ----- stopping -----

    method BeginStopping()
      modifies this`stopping
      ensures View() == DaemonSteps.BeginStopping(old(View()))
    {
      stopping := true;
    }

    method Signal()
      modifies this`stopping, this`exiting
      ensures View() == DaemonSteps.Signal(old(View()))
    {
      if stopping {
        exiting := true;
        return;
      }
      BeginStopping();
    }
  }

  lemma InstalledJobs(calendar: Calendar, before: seq<Job>, others: seq<Job>, latest: seq<Job>, carried: seq<Job>, jobs: seq<Job>, now: Instant)
    requires |carried| == |latest| && forall k :: 0 <= k < |latest| ==> carried[k] == Carried(before, latest[k])
    requires |jobs| == |others + carried| && jobs[..|others|] == (others + carried)[..|others|]
    requires forall k :: |others| <= k < |jobs| ==> jobs[k] == Replanned(calendar, (others + carried)[k], now)
    ensures jobs == others + CarriedOver(calendar, before, latest, now)
  {
    assert jobs == jobs[..|others|] + jobs[|others|..];
    assert (others + carried)[..|others|] == others;
    forall k | 0 <= k < |latest| ensures jobs[|others|..][k] == CarriedOver(calendar, before, latest, now)[k] {
      assert (others + carried)[|others| + k] == carried[k];
    }
  }

  lemma FireNext(calendar: Calendar, d: DaemonState, due: seq<nat>, i: nat, now: Instant)
    requires i < |due| && forall k :: 0 <= k < |due| ==> due[k] < |d.jobs|
    ensures FireEach(calendar, d, due[i..], now) == FireEach(calendar, DaemonSteps.Fire(calendar, d, due[i], now), due[i + 1..], now)
  {
    assert due[i..][0] == due[i] && due[i..][1..] == due[i + 1..];
  }

  lemma JoinedJobs(a: seq<Job>, b: seq<Job>, c: seq<Job>)
    ensures (a + b) + c == a + (b + c)
  {
  }

  lemma {:induction false} UnwatchedStays(registry: seq<Watched>, path: string)
    requires path !in Paths(registry)
    ensures WithoutPath(registry, path) == registry
  {
    if registry != [] {
      assert registry == [registry[0]] + registry[1..];
      PathsOf(registry[0], registry[1..]);
      UnwatchedStays(registry[1..], path);
    }
  }
}
