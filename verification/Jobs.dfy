/** Jobs: how manifests become jobs, what the state map holds for them, and when they fire next. */
module Jobs {
  import opened Outcomes

  /** Nanoseconds since the start of 1970. */
  type Instant = nat

  const SECOND: nat := 1_000_000_000

  /** An instant as the state file keeps it, cut to the second. */
  function ToSecond(t: Instant): Instant {
    t - t % SECOND
  }

  predicate IsWholeSecond(t: Instant) {
    t % SECOND == 0
  }

  // ----- schedules -----

  /** Cron schedules are equal when their text and their offset are. */
  datatype Schedule = Cron(text: string, offset: int) | Once(instant: Instant)

  datatype Overlap = Skip | Queue | Parallel

  datatype JobSchedule = JobSchedule(
    name: Option<string>, schedule: Schedule, onOverlap: Overlap, catchUp: bool, enabled: bool, allowUnsandboxed: bool)

  /** The next match of a cron text in an offset, after an instant. */
  type Calendar = (string, int, Instant) -> Option<Instant>

  ghost predicate Advances(calendar: Calendar) {
    forall text, offset, t ::
      calendar(text, offset, t).Some? ==> calendar(text, offset, t).value > t && IsWholeSecond(calendar(text, offset, t).value)
  }

  function NextAfter(calendar: Calendar, schedule: Schedule, t: Instant): Option<Instant> {
    match schedule
    case Cron(text, offset) => calendar(text, offset, t)
    case Once(instant) => if instant > t then Some(instant) else None
  }

  // ----- what already happened -----

  datatype JobState = JobState(paused: bool, lastFire: Option<Instant>, lastRun: Option<string>, lastStatus: Option<int>)

  type States = map<string, JobState>

  const NEVER_RAN := JobState(false, None, None, None)

  function StateOf(states: States, id: string): JobState {
    if id in states then states[id] else NEVER_RAN
  }

  function KeepOnly<T>(states: map<string, T>, ids: set<string>): (r: map<string, T>)
    ensures r.Keys == states.Keys * ids && forall id :: id in r ==> r[id] == states[id]
  {
    map id | id in states && id in ids :: states[id]
  }

  /** The state as the file says it: all of it, but the last fire without its fraction of a second. */
  function WrittenState(state: JobState): (r: JobState)
    ensures r == state.(lastFire := r.lastFire) && (r.lastFire.Some? <==> state.lastFire.Some?)
    ensures r.lastFire.Some? ==> r.lastFire.value % 1_000_000_000 == 0 && r.lastFire.value <= state.lastFire.value < r.lastFire.value + 1_000_000_000
  {
    state.(lastFire := if state.lastFire.Some? then Some(ToSecond(state.lastFire.value)) else None)
  }

  /** What reading the state file back gives. */
  function Written(states: States): States {
    map id | id in states :: WrittenState(states[id])
  }

  // ----- jobs -----

  datatype Job = Job(
    id: string, manifest: string, workingDirectory: string, schedule: Option<JobSchedule>, error: Option<string>,
    nextFire: Option<Instant>, running: bool, queued: bool, state: JobState)

  /** The manifest loads, keeps the schedule on, and nobody holds the job back. */
  predicate IsReady(job: Job) {
    job.error.None? && job.schedule.Some? && job.schedule.value.enabled && !job.state.paused
  }

  predicate IsDue(job: Job, now: Instant) {
    IsReady(job) && job.nextFire.Some? && job.nextFire.value <= now
  }

  predicate IsWaiting(job: Job) {
    job.queued && IsReady(job) && !job.running
  }

  function Ids(jobs: seq<Job>): set<string> {
    set i | 0 <= i < |jobs| :: jobs[i].id
  }

  predicate DistinctIds(jobs: seq<Job>) {
    forall i, j :: 0 <= i < j < |jobs| ==> jobs[i].id != jobs[j].id
  }

  /** The first job with an ID, at or after `from`. */
  function FindFrom(jobs: seq<Job>, id: string, from: nat): (r: Option<nat>)
    requires from <= |jobs|
    ensures r.None? ==> forall i :: from <= i < |jobs| ==> jobs[i].id != id
    ensures r.Some? ==> from <= r.value < |jobs| && jobs[r.value].id == id && forall i :: from <= i < r.value ==> jobs[i].id != id
    decreases |jobs| - from
  {
    if from == |jobs| then None else if jobs[from].id == id then Some(from) else FindFrom(jobs, id, from + 1)
  }

  function Find(jobs: seq<Job>, id: string): Option<nat> {
    FindFrom(jobs, id, 0)
  }

  /** Plans the next fire; `late` lets a fire that was passed run now. */
  function Plan(calendar: Calendar, job: Job, now: Instant, late: bool): Job {
    if !IsReady(job) then job.(nextFire := None)
    else
      var schedule := job.schedule.value.schedule;
      var base :=
        if job.state.lastFire.Some? then job.state.lastFire.value
        else if schedule.Cron? then now
        else 0;
      match NextAfter(calendar, schedule, base)
      case None => job.(nextFire := None)
      case Some(next) =>
        if next > now then job.(nextFire := Some(next))
        else if late && job.schedule.value.catchUp then job.(nextFire := Some(now))
        else job.(nextFire := NextAfter(calendar, schedule, now))
  }

  /** At rest the planned fire lies after the last one, and a one-time fire never comes again. */
  predicate IsPlannedAhead(job: Job) {
    && (job.nextFire.Some? && job.state.lastFire.Some? ==> job.nextFire.value > job.state.lastFire.value)
    && (job.nextFire.Some? && job.schedule.Some? && job.schedule.value.schedule.Once? ==>
          && job.nextFire.value >= job.schedule.value.schedule.instant
          && (job.state.lastFire.Some? ==> job.state.lastFire.value < job.schedule.value.schedule.instant))
  }

  lemma PlanIsAhead(calendar: Calendar, job: Job, now: Instant, late: bool)
    requires Advances(calendar)
    ensures IsPlannedAhead(Plan(calendar, job, now, late))
    ensures !late ==> !IsDue(Plan(calendar, job, now, late), now)
    ensures Plan(calendar, job, now, late) == job.(nextFire := Plan(calendar, job, now, late).nextFire)
  {
    if IsReady(job) {
      var schedule := job.schedule.value.schedule;
      if schedule.Cron? {
        assert forall t :: calendar(schedule.text, schedule.offset, t).Some? ==> calendar(schedule.text, schedule.offset, t).value > t;
      }
    }
  }

  /** The calendar answers with the first of a fixed set of instants. */
  ghost predicate IsSteady(calendar: Calendar) {
    forall text, offset, t: Instant, u: Instant | t <= u ::
      && (calendar(text, offset, t).None? ==> calendar(text, offset, u).None?)
      && (calendar(text, offset, t).Some? && calendar(text, offset, t).value > u ==> calendar(text, offset, u) == calendar(text, offset, t))
  }

  /** The last instant a job has dealt with: its last fire, or now for a recurring job that never fired. */
  function Base(job: Job, now: Instant): Instant
    requires job.schedule.Some?
  {
    if job.state.lastFire.Some? then job.state.lastFire.value
    else if job.schedule.value.schedule.Cron? then now
    else 0
  }

  /** The schedule names an instant between the last one dealt with and now. */
  ghost predicate IsMissed(calendar: Calendar, job: Job, now: Instant)
    requires job.schedule.Some?
  {
    var next := NextAfter(calendar, job.schedule.value.schedule, Base(job, now));
    next.Some? && next.value <= now
  }

  /**
   * A ready job is planned for the first instant its schedule names beyond both its last fire and now. The exception
   * is opening a daemon: with catch-up set, a missed instant makes the job due at once.
   */
  lemma PlanIsFirstAfterBoth(calendar: Calendar, job: Job, now: Instant, late: bool)
    requires Advances(calendar) && IsSteady(calendar) && IsReady(job)
    ensures var base := Base(job, now);
            Plan(calendar, job, now, late).nextFire ==
            if late && job.schedule.value.catchUp && IsMissed(calendar, job, now) then Some(now)
            else NextAfter(calendar, job.schedule.value.schedule, if base > now then base else now)
  {
    var base, schedule := Base(job, now), job.schedule.value.schedule;
    var next := NextAfter(calendar, schedule, base);
    if schedule.Cron? {
      if next.Some? {
        assert calendar(schedule.text, schedule.offset, base).value > base;
      }
      if base <= now {
        assert next.None? ==> calendar(schedule.text, schedule.offset, now).None?;
        assert next.Some? && next.value > now ==> calendar(schedule.text, schedule.offset, now) == next;
      }
    }
  }

  // ----- reading manifests -----

  datatype Manifest = Unreadable(error: string) | Manifest(schedules: seq<JobSchedule>, sandboxed: bool)

  datatype Watched = Watched(path: string, workingDirectory: string)

  /** What the manifests on disk hold at one moment; `stem` names a manifest by its path. */
  datatype Files = Files(stem: string -> string, load: string -> Manifest)

  /** The loader refuses a manifest that uses a schedule name twice. */
  ghost predicate NamesAreDistinct(files: Files) {
    forall path :: files.load(path).Manifest? ==>
      forall i, j :: 0 <= i < j < |files.load(path).schedules| ==>
        files.load(path).schedules[i].name != files.load(path).schedules[j].name
  }

  function NewJob(id: string, watched: Watched, schedule: Option<JobSchedule>, error: Option<string>, states: States): Job {
    Job(id, watched.path, watched.workingDirectory, schedule, error, None, false, false, StateOf(states, id))
  }

  function JobId(stem: string, name: Option<string>): string {
    if name.Some? then stem + ":" + name.value else stem
  }

  function ScheduledJob(stem: string, watched: Watched, schedule: JobSchedule, sandboxed: bool, states: States): Job {
    var error := if !sandboxed && !schedule.allowUnsandboxed then Some("every task must set a sandbox") else None;
    NewJob(JobId(stem, schedule.name), watched, Some(schedule), error, states)
  }

  /** The job of one schedule: named after both, and broken when a task has no sandbox although the schedule wants one. */
  predicate IsJobOf(job: Job, stem: string, schedule: JobSchedule, sandboxed: bool) {
    && job.schedule == Some(schedule)
    && job.id == (match schedule.name case None => stem case Some(name) => stem + ":" + name)
    && (job.error.Some? <==> !sandboxed && !schedule.allowUnsandboxed)
  }

  /** Reads one manifest into jobs; an unreadable or unscheduled one becomes a single job that carries the error. */
  function JobsOf(watched: Watched, files: Files, states: States): (r: seq<Job>)
    ensures |r| >= 1
    ensures forall i :: 0 <= i < |r| ==> r[i].manifest == watched.path && r[i].state == StateOf(states, r[i].id)
    ensures forall i :: 0 <= i < |r| ==> r[i].nextFire.None? && !r[i].running && !r[i].queued
    ensures forall i :: 0 <= i < |r| && r[i].schedule.None? ==> r[i].error.Some?
    ensures forall i :: 0 <= i < |r| ==> r[i].workingDirectory == watched.workingDirectory
    ensures forall i :: 0 <= i < |r| && r[i].id !in states ==> r[i].state == JobState(false, None, None, None)
    ensures match files.load(watched.path)
            case Unreadable(error) => |r| == 1 && r[0].id == files.stem(watched.path) && r[0].schedule.None? && r[0].error == Some(error)
            case Manifest(schedules, sandboxed) =>
              if schedules == [] then |r| == 1 && r[0].id == files.stem(watched.path) && r[0].schedule.None?
              else |r| == |schedules| && forall i :: 0 <= i < |r| ==> IsJobOf(r[i], files.stem(watched.path), schedules[i], sandboxed)
  {
    var stem := files.stem(watched.path);
    match files.load(watched.path)
    case Unreadable(error) => [NewJob(stem, watched, None, Some(error), states)]
    case Manifest(schedules, sandboxed) =>
      if schedules == [] then
        [NewJob(stem, watched, None, Some("manifest has no schedule section"), states)]
      else
        seq(|schedules|, i requires 0 <= i < |schedules| => ScheduledJob(stem, watched, schedules[i], sandboxed, states))
  }

  lemma JobsOfAreDistinct(watched: Watched, files: Files, states: States)
    requires NamesAreDistinct(files)
    ensures DistinctIds(JobsOf(watched, files, states))
  {
    var stem, loaded := files.stem(watched.path), files.load(watched.path);
    if loaded.Manifest? && loaded.schedules != [] {
      forall i, j | 0 <= i < j < |loaded.schedules|
        ensures JobId(stem, loaded.schedules[i].name) != JobId(stem, loaded.schedules[j].name)
      {
        var a, b := loaded.schedules[i].name, loaded.schedules[j].name;
        if a.Some? && b.Some? {
          assert (stem + ":" + a.value)[|stem| + 1..] == a.value;
          assert (stem + ":" + b.value)[|stem| + 1..] == b.value;
        } else if a.Some? {
          assert |JobId(stem, a)| > |JobId(stem, b)|;
        } else if b.Some? {
          assert |JobId(stem, b)| > |JobId(stem, a)|;
        }
      }
    }
  }

  datatype Refusal = Unschedulable(error: string) | TakenId(id: string)

  /** Whether a command may watch these jobs beside the IDs of every other manifest. */
  function Admit(jobs: seq<Job>, others: seq<string>): (r: Result<seq<string>, Refusal>)
    requires forall i :: 0 <= i < |jobs| && jobs[i].schedule.None? ==> jobs[i].error.Some?
    ensures r.Ok? ==> r.value == seq(|jobs|, i requires 0 <= i < |jobs| => jobs[i].id)
    ensures r.Ok? <==> (forall i :: 0 <= i < |jobs| ==> jobs[i].schedule.Some?) && forall o :: o in others ==> o !in Ids(jobs)
    ensures r.Err? && r.error.TakenId? ==> (forall i :: 0 <= i < |jobs| ==> jobs[i].schedule.Some?) && r.error.id in others && r.error.id in Ids(jobs)
    ensures r.Err? && r.error.Unschedulable? ==> exists i :: 0 <= i < |jobs| && IsFirstUnschedulable(jobs, i) && jobs[i].error == Some(r.error.error)
  {
    match FirstUnschedulable(jobs)
    case Some(error) => Err(Unschedulable(error))
    case None =>
      match FirstTaken(others, Ids(jobs))
      case Some(id) => Err(TakenId(id))
      case None => Ok(seq(|jobs|, i requires 0 <= i < |jobs| => jobs[i].id))
  }

  /** The job has no schedule, and every job before it has one. */
  predicate IsFirstUnschedulable(jobs: seq<Job>, i: nat)
    requires i < |jobs|
  {
    jobs[i].schedule.None? && forall j :: 0 <= j < i ==> jobs[j].schedule.Some?
  }

  /** The error of the first job without a schedule. */
  function FirstUnschedulable(jobs: seq<Job>): (r: Option<string>)
    requires forall i :: 0 <= i < |jobs| && jobs[i].schedule.None? ==> jobs[i].error.Some?
    ensures r.None? <==> forall i :: 0 <= i < |jobs| ==> jobs[i].schedule.Some?
    ensures r.Some? ==> exists i :: 0 <= i < |jobs| && IsFirstUnschedulable(jobs, i) && jobs[i].error == r
  {
    if jobs == [] then None
    else if jobs[0].schedule.None? then
      assert IsFirstUnschedulable(jobs, 0);
      jobs[0].error
    else
      var rest := FirstUnschedulable(jobs[1..]);
      assert rest.Some? ==> exists i :: 0 <= i < |jobs| && IsFirstUnschedulable(jobs, i) && jobs[i].error == rest by {
        if rest.Some? {
          var i :| 0 <= i < |jobs[1..]| && IsFirstUnschedulable(jobs[1..], i) && jobs[1..][i].error == rest;
          assert forall j :: 0 < j < i + 1 ==> jobs[j] == jobs[1..][j - 1];
          assert IsFirstUnschedulable(jobs, i + 1);
        }
      }
      rest
  }

  function FirstTaken(others: seq<string>, ids: set<string>): (r: Option<string>)
    ensures r.None? <==> forall o :: o in others ==> o !in ids
    ensures r.Some? ==> r.value in others && r.value in ids
  {
    if others == [] then None
    else if others[0] in ids then Some(others[0])
    else FirstTaken(others[1..], ids)
  }
}
