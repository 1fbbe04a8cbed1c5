/** What each event does to the schedule daemon, as functions from state to state. */
module DaemonSteps {
  import opened Outcomes
  import opened Jobs

  /**
   * The daemon, its two files, and the runs whose end it has still to handle.
   * `saved` is the state file; `fires` lists the fires of each job since its state was last dropped.
   */
  datatype DaemonState = DaemonState(
    registry: seq<Watched>, states: States, saved: States, jobs: seq<Job>,
    running: nat, limit: nat, stopping: bool, exiting: bool,
    runs: multiset<string>, fires: map<string, seq<Instant>>)

  datatype RunOutcome = RunOutcome(directory: Option<string>, status: Option<int>)

  datatype Response = Done | Refused(refusal: Refusal) | NotWatched | UnknownJob | CannotRun | AlreadyRunning | AtLimit

  // ----- one job -----

  function WithJob(d: DaemonState, i: nat, job: Job): DaemonState
    requires i < |d.jobs|
  {
    d.(jobs := d.jobs[i := job])
  }

  function PlanJob(calendar: Calendar, d: DaemonState, i: nat, now: Instant, late: bool): DaemonState
    requires i < |d.jobs|
  {
    WithJob(d, i, Plan(calendar, d.jobs[i], now, late))
  }

  function SaveState(d: DaemonState, i: nat): DaemonState
    requires i < |d.jobs|
  {
    var states := d.states[d.jobs[i].id := d.jobs[i].state];
    d.(states := states, saved := Written(states))
  }

  function Start(d: DaemonState, i: nat): DaemonState
    requires i < |d.jobs|
  {
    WithJob(d, i, d.jobs[i].(running := true, queued := false)).(running := d.running + 1, runs := d.runs + multiset{d.jobs[i].id})
  }

  function Queue(d: DaemonState, i: nat): DaemonState
    requires i < |d.jobs|
  {
    WithJob(d, i, d.jobs[i].(queued := true))
  }

  // ----- fires -----

  datatype Action = StartNow | Wait | Drop

  function ActionFor(running: nat, limit: nat, job: Job): Action {
    if running >= limit then Wait
    else if !job.running then StartNow
    else if job.schedule.None? then Drop
    else match job.schedule.value.onOverlap
      case Skip => Drop
      case Queue => Wait
      case Parallel => StartNow
  }

  function FiresOf(fires: map<string, seq<Instant>>, id: string): seq<Instant> {
    if id in fires then fires[id] else []
  }

  function Act(d: DaemonState, i: nat, action: Action): DaemonState
    requires i < |d.jobs|
  {
    match action
    case StartNow => Start(d, i)
    case Wait => Queue(d, i)
    case Drop => d
  }

  /** A fire is on record before the daemon decides what to do about it. */
  function NoteFire(d: DaemonState, i: nat, fire: Instant): DaemonState
    requires i < |d.jobs|
  {
    var job := d.jobs[i];
    WithJob(d, i, job.(state := job.state.(lastFire := Some(fire))))
      .(fires := d.fires[job.id := FiresOf(d.fires, job.id) + [fire]])
  }

  function Fire(calendar: Calendar, d: DaemonState, i: nat, now: Instant): (r: DaemonState)
    requires i < |d.jobs|
    ensures |r.jobs| == |d.jobs|
  {
    var fire := if d.jobs[i].nextFire.Some? then d.jobs[i].nextFire.value else now;
    var acted := Act(NoteFire(d, i, fire), i, ActionFor(d.running, d.limit, d.jobs[i]));
    PlanJob(calendar, SaveState(acted, i), i, now, false)
  }

  /** The due jobs at or after `from`, in order. */
  function Due(jobs: seq<Job>, now: Instant, from: nat): (r: seq<nat>)
    requires from <= |jobs|
    ensures forall i :: i in r <==> from <= i < |jobs| && IsDue(jobs[i], now)
    ensures forall a, b :: 0 <= a < b < |r| ==> r[a] < r[b]
    decreases |jobs| - from
  {
    if from == |jobs| then []
    else
      var rest := Due(jobs, now, from + 1);
      assert forall b :: 0 <= b < |rest| ==> rest[b] in rest;
      if IsDue(jobs[from], now) then [from] + rest else rest
  }

  function FireEach(calendar: Calendar, d: DaemonState, due: seq<nat>, now: Instant): (r: DaemonState)
    requires forall k :: 0 <= k < |due| ==> due[k] < |d.jobs|
    ensures |r.jobs| == |d.jobs|
    decreases |due|
  {
    if due == [] then d else FireEach(calendar, Fire(calendar, d, due[0], now), due[1..], now)
  }

  function FireDue(calendar: Calendar, d: DaemonState, now: Instant): DaemonState {
    var due := Due(d.jobs, now, 0);
    assert forall k :: 0 <= k < |due| ==> due[k] in due;
    if d.stopping then d else FireEach(calendar, d, due, now)
  }

  // ----- the end of a run -----

  /** The first job at or after `from` whose waiting fire may start. */
  function FirstWaiting(jobs: seq<Job>, from: nat): (r: Option<nat>)
    requires from <= |jobs|
    ensures r.None? ==> forall i :: from <= i < |jobs| ==> !IsWaiting(jobs[i])
    ensures r.Some? ==> from <= r.value < |jobs| && IsWaiting(jobs[r.value])
    ensures r.Some? ==> forall i :: from <= i < r.value ==> !IsWaiting(jobs[i])
    decreases |jobs| - from
  {
    if from == |jobs| then None else if IsWaiting(jobs[from]) then Some(from) else FirstWaiting(jobs, from + 1)
  }

  function StartWaiting(d: DaemonState): DaemonState
    decreases d.limit - d.running
  {
    if d.running >= d.limit || FirstWaiting(d.jobs, 0).None? then d
    else StartWaiting(Start(d, FirstWaiting(d.jobs, 0).value))
  }

  function StartQueued(d: DaemonState): DaemonState {
    if d.stopping then d else StartWaiting(d)
  }

  /** The run has left, and its job, when there still is one, remembers how it ended. */
  function NoteEnd(d: DaemonState, id: string, outcome: RunOutcome): DaemonState {
    var left := d.(running := if d.running == 0 then 0 else d.running - 1, runs := d.runs - multiset{id});
    var found := Find(d.jobs, id);
    if found.None? then left
    else
      var job := d.jobs[found.value];
      var ended := job.(running := false, state := job.state.(lastRun := outcome.directory, lastStatus := outcome.status));
      SaveState(WithJob(left, found.value, ended), found.value)
  }

  function Finished(d: DaemonState, id: string, outcome: RunOutcome): DaemonState {
    StartQueued(NoteEnd(d, id, outcome))
  }

  // ----- commands -----

  function Hold(calendar: Calendar, d: DaemonState, id: string, paused: bool, now: Instant): (DaemonState, Response) {
    var found := Find(d.jobs, id);
    if found.None? then (d, UnknownJob)
    else
      var job := d.jobs[found.value];
      var held := WithJob(d, found.value, job.(state := job.state.(paused := paused)));
      (PlanJob(calendar, SaveState(held, found.value), found.value, now, false), Done)
  }

  function TriggerAnswer(d: DaemonState, id: string): Response {
    var found := Find(d.jobs, id);
    if found.None? then UnknownJob
    else if d.jobs[found.value].error.Some? then CannotRun
    else if d.jobs[found.value].running then AlreadyRunning
    else if d.running >= d.limit then AtLimit
    else Done
  }

  function Trigger(d: DaemonState, id: string): (DaemonState, Response) {
    var answer := TriggerAnswer(d, id);
    (if answer.Done? then Start(d, Find(d.jobs, id).value) else d, answer)
  }

  // ----- watched manifests -----

  function Paths(registry: seq<Watched>): set<string> {
    set i | 0 <= i < |registry| :: registry[i].path
  }

  lemma PathsOf(watched: Watched, rest: seq<Watched>)
    ensures Paths([watched] + rest) == {watched.path} + Paths(rest)
  {
    var all := [watched] + rest;
    forall p | p in {watched.path} + Paths(rest) ensures p in Paths(all) {
      if p == watched.path {
        assert all[0].path == p;
      } else {
        var i :| 0 <= i < |rest| && rest[i].path == p;
        assert all[i + 1].path == p;
      }
    }
  }

  function WithoutPath(registry: seq<Watched>, path: string): (r: seq<Watched>)
    ensures Paths(r) == Paths(registry) - {path}
    ensures |r| == |registry| <==> path !in Paths(registry)
    ensures |r| <= |registry|
    ensures forall watched :: watched in r <==> watched in registry && watched.path != path
  {
    if registry == [] then []
    else
      var rest := WithoutPath(registry[1..], path);
      assert registry == [registry[0]] + registry[1..];
      PathsOf(registry[0], registry[1..]);
      PathsOf(registry[0], rest);
      if registry[0].path == path then rest else [registry[0]] + rest
  }

  /** The jobs whose manifest is one of `paths`, in order. */
  function JobsIn(jobs: seq<Job>, paths: set<string>): (r: seq<Job>)
    ensures forall j :: j in r <==> j in jobs && j.manifest in paths
    ensures DistinctIds(jobs) ==> DistinctIds(r)
  {
    if jobs == [] then []
    else
      var rest := JobsIn(jobs[1..], paths);
      assert jobs == [jobs[0]] + jobs[1..];
      assert DistinctIds(jobs) ==> forall k :: 0 <= k < |rest| ==> rest[k] in jobs[1..] && rest[k].id != jobs[0].id;
      if jobs[0].manifest in paths then [jobs[0]] + rest else rest
  }

  function Manifests(jobs: seq<Job>): set<string> {
    set i | 0 <= i < |jobs| :: jobs[i].manifest
  }

  function Others(jobs: seq<Job>, path: string): seq<Job> {
    JobsIn(jobs, Manifests(jobs) - {path})
  }

  /** A job read again keeps what is going on, and its planned fire when its schedule did not change. */
  function Carried(jobs: seq<Job>, job: Job): Job {
    var found := Find(jobs, job.id);
    if found.None? then job
    else
      var before := jobs[found.value];
      job.(running := before.running, queued := before.queued,
           nextFire := if before.schedule == job.schedule then before.nextFire else job.nextFire)
  }

  function Replanned(calendar: Calendar, job: Job, now: Instant): Job {
    if job.nextFire.None? then Plan(calendar, job, now, false) else job
  }

  function CarriedOver(calendar: Calendar, jobs: seq<Job>, latest: seq<Job>, now: Instant): (r: seq<Job>)
    ensures |r| == |latest|
    ensures forall i :: 0 <= i < |r| ==> r[i] == Replanned(calendar, Carried(jobs, latest[i]), now)
  {
    seq(|latest|, i requires 0 <= i < |latest| => Replanned(calendar, Carried(jobs, latest[i]), now))
  }

  function Install(calendar: Calendar, d: DaemonState, path: string, latest: seq<Job>, now: Instant): DaemonState {
    d.(jobs := Others(d.jobs, path) + CarriedOver(calendar, d.jobs, latest, now))
  }

  function Reread(calendar: Calendar, d: DaemonState, watched: Watched, files: Files, now: Instant): DaemonState {
    Install(calendar, d, watched.path, JobsOf(watched, files, d.states), now)
  }

  function Relist(d: DaemonState, registry: seq<Watched>): DaemonState {
    d.(registry := registry, jobs := JobsIn(d.jobs, Paths(registry)))
  }

  function RereadEach(calendar: Calendar, d: DaemonState, registry: seq<Watched>, files: Files, now: Instant): DaemonState
    decreases |registry|
  {
    if registry == [] then d
    else RereadEach(calendar, Reread(calendar, d, registry[0], files, now), registry[1..], files, now)
  }

  function OtherIds(jobs: seq<Job>): (r: seq<string>)
    ensures forall id :: id in r <==> id in Ids(jobs)
  {
    var r := seq(|jobs|, i requires 0 <= i < |jobs| => jobs[i].id);
    assert forall i :: 0 <= i < |jobs| ==> r[i] == jobs[i].id;
    r
  }

  function Add(calendar: Calendar, d: DaemonState, watched: Watched, files: Files, now: Instant): (DaemonState, Response) {
    var latest := JobsOf(watched, files, d.states);
    match Admit(latest, OtherIds(Others(d.jobs, watched.path)))
    case Err(refusal) => (d, Refused(refusal))
    case Ok(_) =>
      var watching := d.(registry := WithoutPath(d.registry, watched.path) + [watched]);
      (Install(calendar, watching, watched.path, latest, now), Done)
  }

  function PruneStates(d: DaemonState): DaemonState {
    var states := KeepOnly(d.states, Ids(d.jobs));
    d.(states := states, saved := Written(states), fires := KeepOnly(d.fires, Ids(d.jobs)))
  }

  function Remove(d: DaemonState, path: string): (DaemonState, Response) {
    var registry := WithoutPath(d.registry, path);
    if |registry| == |d.registry| then (d, NotWatched)
    else (PruneStates(d.(registry := registry, jobs := Others(d.jobs, path))), Done)
  }

  // ----- stopping and starting -----

  function BeginStopping(d: DaemonState): DaemonState {
    d.(stopping := true)
  }

  function Signal(d: DaemonState): DaemonState {
    if d.stopping then d.(exiting := true) else BeginStopping(d)
  }

  /** The jobs of every watched manifest, in registry order. */
  function Build(registry: seq<Watched>, files: Files, states: States): seq<Job> {
    if registry == [] then [] else JobsOf(registry[0], files, states) + Build(registry[1..], files, states)
  }

  function Open(calendar: Calendar, registry: seq<Watched>, files: Files, saved: States, limit: nat,
                fires: map<string, seq<Instant>>, now: Instant): DaemonState {
    var jobs := Build(registry, files, saved);
    DaemonState(registry, saved, saved, seq(|jobs|, i requires 0 <= i < |jobs| => Plan(calendar, jobs[i], now, true)),
                0, if limit == 0 then 1 else limit, false, false, multiset{}, fires)
  }

  // ----- commands given while no daemon runs -----

  /** Pausing or resuming a job in the state file alone. */
  function HoldOffline(saved: States, ids: set<string>, id: string, paused: bool): (States, Response) {
    if id !in ids then (saved, UnknownJob)
    else (Written(saved[id := StateOf(saved, id).(paused := paused)]), Done)
  }
}
