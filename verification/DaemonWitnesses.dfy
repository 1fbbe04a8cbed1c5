/** Histories, each from a fresh daemon, that show where a promise one might expect does not hold. */
module DaemonWitnesses {
  import opened Outcomes
  import opened Jobs
  import opened DaemonSteps
  import opened DaemonSafety
  import opened DaemonFires
  import opened DaemonRuns
  import CronSchedules
  import Splitting
  import Templates
  import WeekDays

  // ----- a schedule that fires every minute -----

  const MINUTE: nat := 60 * SECOND

  const EVERY_MINUTE: string := "* * * * *"

  /** The minutes `EVERY_MINUTE` names, whatever the offset. */
  function Minutely(text: string, offset: int, t: Instant): Option<Instant> {
    Some(t - t % MINUTE + MINUTE)
  }

  lemma MinutesAreWhole(t: Instant)
    ensures t - t % MINUTE + MINUTE > t && IsWholeSecond(t - t % MINUTE + MINUTE)
    ensures (t - t % MINUTE + MINUTE) % MINUTE == 0
  {
    var n := t / MINUTE;
    assert t - t % MINUTE + MINUTE == MINUTE * (n + 1);
    assert MINUTE * (n + 1) == SECOND * (60 * (n + 1));
  }

  /** The calendar of whole minutes: later, on the second, and without a minute left out. */
  lemma MinutelyIsACalendar()
    ensures Advances(Minutely) && IsSteady(Minutely)
  {
    forall text, offset, t: Instant
      ensures Minutely(text, offset, t).value > t && IsWholeSecond(Minutely(text, offset, t).value)
    {
      MinutesAreWhole(t);
    }
    forall text, offset, t: Instant, u: Instant | t <= u && Minutely(text, offset, t).value > u
      ensures Minutely(text, offset, u) == Minutely(text, offset, t)
    {
      SameMinute(t, u);
    }
  }

  lemma SameMinute(t: Instant, u: Instant)
    requires t <= u < t - t % MINUTE + MINUTE
    ensures u - u % MINUTE == t - t % MINUTE
  {
  }

  lemma StarsSplit()
    ensures CronSchedules.SplitWhitespace(EVERY_MINUTE) == ["*", "*", "*", "*", "*"]
  {
    var stars := ["*", "*", "*", "*", "*"];
    assert Splitting.Join(stars, ' ') == EVERY_MINUTE by {
      assert stars[1..] == ["*", "*", "*", "*"] && stars[1..][1..] == ["*", "*", "*"];
      assert ["*", "*", "*"][1..] == ["*", "*"] && ["*", "*"][1..] == ["*"];
    }
    CronSchedules.JoinedWordsSplit(stars);
  }

  lemma EveryMinuteIsNormal()
    ensures CronSchedules.Normalize(EVERY_MINUTE) == Ok(["0", "*", "*", "*", "*", "*"])
  {
    StarsSplit();
    StarStays();
    var fields := ["0"] + ["*", "*", "*", "*", "*"];
    assert fields == ["0", "*", "*", "*", "*", "*"] && fields[5 := "*"] == fields;
    assert Splitting.IsNumber(fields[0]);
  }

  lemma EveryMinuteIsTrimmed()
    ensures Templates.Trim(EVERY_MINUTE) == EVERY_MINUTE
  {
  }

  /** The text is one the reader of cron expressions accepts, once the parser knows its fields. */
  lemma EveryMinuteIsAccepted(library: CronSchedules.Library)
    requires library.values(0, "0").Some? && forall p :: 1 <= p <= 5 ==> library.values(p, "*").Some?
    ensures CronSchedules.New(library, EVERY_MINUTE, 0).Ok?
  {
    EveryMinuteIsNormal();
    EveryMinuteIsTrimmed();
    assert EVERY_MINUTE[0] == '*';
    CronSchedules.AcceptedExactly(library, EVERY_MINUTE, 0);
  }

  lemma StarStays()
    ensures WeekDays.ShiftDaysOfWeek("*") == Ok("*")
  {
    assert "*" + [] == "*";
    Splitting.SplitPrefixed("*", [], ',');
    Splitting.SplitPrefixed("*", [], '-');
    assert ["*"][1..] == [] && ["*"] + [] == ["*"];
    assert WeekDays.ShiftDays([]) == Ok([]) && WeekDays.ShiftDays(["*"]) == Ok(["*"]);
    assert WeekDays.ShiftTerm("*") == Ok("*");
    WeekDays.ShiftsField("*", "*");
  }

  // ----- one busy job -----

  const HOME := Watched("/work/busy.yaml", "/work")

  function Scheduled(enabled: bool): JobSchedule {
    JobSchedule(None, Cron(EVERY_MINUTE, 0), Queue, false, enabled, false)
  }

  function HomeFiles(enabled: bool): Files {
    Files(_ => "busy", _ => Manifest([Scheduled(enabled)], true))
  }

  function BusyJob(enabled: bool, nextFire: Option<Instant>, running: bool, queued: bool, state: JobState): Job {
    Job("busy", HOME.path, HOME.workingDirectory, Some(Scheduled(enabled)), None, nextFire, running, queued, state)
  }

  function FiredAt(paused: bool, fire: Instant): JobState {
    JobState(paused, Some(fire), None, None)
  }

  /** A daemon of the limit one that watches the busy job alone. */
  function BusyDaemon(job: Job, states: States, stopping: bool, running: nat, runs: multiset<string>, fires: seq<Instant>): DaemonState {
    DaemonState([HOME], states, states, [job], running, 1, stopping, false, runs, if fires == [] then map[] else map["busy" := fires])
  }

  function Opened(): DaemonState {
    BusyDaemon(BusyJob(true, Some(MINUTE), false, false, NEVER_RAN), map[], false, 0, multiset{}, [])
  }

  function Fired(): DaemonState {
    var state := FiredAt(false, MINUTE);
    BusyDaemon(BusyJob(true, Some(2 * MINUTE), true, false, state), map["busy" := state], false, 1, multiset{"busy"}, [MINUTE])
  }

  /** Two fires: the first one runs, and the second one waits. */
  function Busy(enabled: bool, nextFire: Option<Instant>, running: bool, paused: bool): DaemonState {
    var state := FiredAt(paused, 2 * MINUTE);
    BusyDaemon(BusyJob(enabled, nextFire, running, true, state), map["busy" := state], false, if running then 1 else 0,
               if running then multiset{"busy"} else multiset{}, [MINUTE, 2 * MINUTE])
  }

  lemma OpensHere()
    ensures Open(Minutely, [HOME], HomeFiles(true), map[], 1, map[], 0) == Opened()
  {
    ReadsHere(true, map[]);
    assert [HOME][1..] == [] && Build([], HomeFiles(true), map[]) == [];
    var jobs := Build([HOME], HomeFiles(true), map[]);
    assert jobs == [BusyJob(true, None, false, false, NEVER_RAN)];
    assert Plan(Minutely, jobs[0], 0, true) == Opened().jobs[0];
  }

  lemma ReadsHere(enabled: bool, states: States)
    ensures JobsOf(HOME, HomeFiles(enabled), states) == [BusyJob(enabled, None, false, false, StateOf(states, "busy"))]
  {
  }

  lemma FindsBusy(job: Job)
    requires job.id == "busy"
    ensures Find([job], "busy") == Some(0)
  {
  }

  lemma TickHere(d: DaemonState, now: Instant)
    requires |d.jobs| == 1 && !d.stopping && IsDue(d.jobs[0], now)
    ensures FireDue(Minutely, d, now) == Fire(Minutely, d, 0, now)
  {
    assert Due(d.jobs, now, 1) == [];
    assert Due(d.jobs, now, 0) == [0];
    assert [0][1..] == [];
    assert FireEach(Minutely, Fire(Minutely, d, 0, now), [], now) == Fire(Minutely, d, 0, now);
  }

  lemma FirstTick()
    ensures Apply(Minutely, Opened(), Tick(MINUTE)) == Fired()
  {
    TickHere(Opened(), MINUTE);
    FirstFireHere();
  }

  lemma SecondTick()
    ensures Apply(Minutely, Fired(), Tick(2 * MINUTE)) == Busy(true, Some(3 * MINUTE), true, false)
  {
    TickHere(Fired(), 2 * MINUTE);
    SecondFireHere();
  }

  lemma FirstFireHere()
    ensures Fire(Minutely, Opened(), 0, MINUTE) == Fired()
  {
    var d, e := Opened(), Fired();
    var started := Start(NoteFire(d, 0, MINUTE), 0);
    assert started.jobs == [BusyJob(true, Some(MINUTE), true, false, FiredAt(false, MINUTE))];
    assert SaveState(started, 0).states == e.states && SaveState(started, 0).saved == e.saved;
    assert FiresOf(d.fires, "busy") + [MINUTE] == [MINUTE];
    assert started.fires == e.fires;
    assert PlanJob(Minutely, SaveState(started, 0), 0, MINUTE, false).jobs == e.jobs;
  }

  lemma SecondFireHere()
    ensures Fire(Minutely, Fired(), 0, 2 * MINUTE) == Busy(true, Some(3 * MINUTE), true, false)
  {
    var d, e := Fired(), Busy(true, Some(3 * MINUTE), true, false);
    var queued := DaemonSteps.Queue(NoteFire(d, 0, 2 * MINUTE), 0);
    assert queued.jobs == [BusyJob(true, Some(2 * MINUTE), true, true, FiredAt(false, 2 * MINUTE))];
    assert SaveState(queued, 0).states == e.states && SaveState(queued, 0).saved == e.saved;
    assert FiresOf(d.fires, "busy") + [2 * MINUTE] == [MINUTE, 2 * MINUTE];
    assert queued.fires == e.fires;
    assert PlanJob(Minutely, SaveState(queued, 0), 0, 2 * MINUTE, false).jobs == e.jobs;
  }

  /** The run ends while the job may not fire, so its waiting fire stays where it is. */
  lemma EndHere(enabled: bool, paused: bool)
    requires !enabled || paused
    ensures Legal(Busy(enabled, None, true, paused), End("busy", RunOutcome(None, None)))
    ensures Apply(Minutely, Busy(enabled, None, true, paused), End("busy", RunOutcome(None, None))) == Busy(enabled, None, false, paused)
  {
    var d, e := Busy(enabled, None, true, paused), Busy(enabled, None, false, paused);
    FindsBusy(d.jobs[0]);
    var ended := NoteEnd(d, "busy", RunOutcome(None, None));
    assert ended.jobs == e.jobs;
    assert ended.states == e.states && ended.saved == e.saved;
    assert ended == e;
    assert FirstWaiting(e.jobs, 1) == None;
    assert StartWaiting(e) == e;
  }

  // ----- fires left behind -----

  /** A ready, idle job waits, there is room, and no run is left whose end would start it. */
  predicate IsStranded(d: DaemonState) {
    HasRoom(d) && d.runs == multiset{} && exists i :: 0 <= i < |d.jobs| && IsWaiting(d.jobs[i])
  }

  /** A history that starts with a fresh daemon. */
  ghost predicate IsFreshHistory(trace: seq<DaemonState>, steps: seq<Step>) {
    IsHistory(Minutely, trace, steps) && trace[0] == Open(Minutely, [HOME], HomeFiles(true), map[], 1, map[], 0)
  }

  /** Before the last step no fire is left behind, and after it one is stranded. */
  ghost predicate Strands(trace: seq<DaemonState>, steps: seq<Step>) {
    IsFreshHistory(trace, steps) && steps != [] && NoneIdle(trace[|steps| - 1]) && IsStranded(trace[|steps|])
  }

  lemma HoldHere(paused: bool)
    ensures Apply(Minutely, Busy(true, if paused then Some(3 * MINUTE) else None, paused, !paused),
                  if paused then Pause("busy", 2 * MINUTE) else Resume("busy", 2 * MINUTE))
            == Busy(true, if paused then None else Some(3 * MINUTE), paused, paused)
  {
    var d := Busy(true, if paused then Some(3 * MINUTE) else None, paused, !paused);
    var e := Busy(true, if paused then None else Some(3 * MINUTE), paused, paused);
    FindsBusy(d.jobs[0]);
    var job := d.jobs[0];
    var held := WithJob(d, 0, job.(state := job.state.(paused := paused)));
    assert SaveState(held, 0).states == e.states && SaveState(held, 0).saved == e.saved;
    assert PlanJob(Minutely, SaveState(held, 0), 0, 2 * MINUTE, false).jobs == e.jobs;
  }

  const RUN_ENDS: Step := End("busy", RunOutcome(None, None))

  /** One legal step from a state to the next. */
  ghost predicate IsLink(d: DaemonState, step: Step, e: DaemonState) {
    Legal(d, step) && e == Apply(Minutely, d, step)
  }

  /** A history goes on with one more step. */
  lemma OneMoreStep(trace: seq<DaemonState>, steps: seq<Step>, step: Step, e: DaemonState)
    requires IsHistory(Minutely, trace, steps) && IsLink(trace[|steps|], step, e)
    ensures IsHistory(Minutely, trace + [e], steps + [step])
  {
    forall k | 0 <= k < |steps + [step]| ensures IsLink((trace + [e])[k], (steps + [step])[k], (trace + [e])[k + 1]) {
      LinkAt(trace, steps, step, e, k);
    }
    LinksMakeHistory(trace + [e], steps + [step]);
  }

  lemma LinkAt(trace: seq<DaemonState>, steps: seq<Step>, step: Step, e: DaemonState, k: nat)
    requires IsHistory(Minutely, trace, steps) && IsLink(trace[|steps|], step, e) && k <= |steps|
    ensures IsLink((trace + [e])[k], (steps + [step])[k], (trace + [e])[k + 1])
  {
    if k < |steps| {
      assert IsLink(trace[k], steps[k], trace[k + 1]);
    }
  }

  lemma LinksMakeHistory(trace: seq<DaemonState>, steps: seq<Step>)
    requires |trace| == |steps| + 1 && forall k :: 0 <= k < |steps| ==> IsLink(trace[k], steps[k], trace[k + 1])
    ensures IsHistory(Minutely, trace, steps)
  {
    forall k | 0 <= k < |steps| ensures Legal(trace[k], steps[k]) && trace[k + 1] == Apply(Minutely, trace[k], steps[k]) {
      assert IsLink(trace[k], steps[k], trace[k + 1]);
    }
  }

  lemma NoStepYet(d: DaemonState)
    ensures IsHistory(Minutely, [d], [])
  {
  }

  /** Two fires of which the second has to wait. */
  lemma Beginning()
    ensures IsHistory(Minutely, [Opened(), Fired(), Busy(true, Some(3 * MINUTE), true, false)], [Tick(MINUTE), Tick(2 * MINUTE)])
  {
    FirstTick();
    SecondTick();
    NoStepYet(Opened());
    OneMoreStep([Opened()], [], Tick(MINUTE), Fired());
    assert [Opened()] + [Fired()] == [Opened(), Fired()] && [] + [Tick(MINUTE)] == [Tick(MINUTE)];
    OneMoreStep([Opened(), Fired()], [Tick(MINUTE)], Tick(2 * MINUTE), Busy(true, Some(3 * MINUTE), true, false));
    assert [Opened(), Fired()] + [Busy(true, Some(3 * MINUTE), true, false)] == [Opened(), Fired(), Busy(true, Some(3 * MINUTE), true, false)];
    assert [Tick(MINUTE)] + [Tick(2 * MINUTE)] == [Tick(MINUTE), Tick(2 * MINUTE)];
  }

  /** A step that holds the job back, the end of the run, and the step that lets the job go again. */
  lemma StrandsWhenReleased(held: DaemonState, ended: DaemonState, last: DaemonState, hold: Step, release: Step)
    returns (trace: seq<DaemonState>, steps: seq<Step>)
    requires IsLink(Busy(true, Some(3 * MINUTE), true, false), hold, held) && IsLink(held, RUN_ENDS, ended) && IsLink(ended, release, last)
    requires NoneIdle(ended) && IsStranded(last)
    ensures Strands(trace, steps) && steps[|steps| - 1] == release
  {
    OpensHere();
    Beginning();
    trace, steps := [Opened(), Fired(), Busy(true, Some(3 * MINUTE), true, false)], [Tick(MINUTE), Tick(2 * MINUTE)];
    trace, steps := ThreeMoreSteps(trace, steps, hold, held, RUN_ENDS, ended, release, last);
  }

  lemma ThreeMoreSteps(before: seq<DaemonState>, taken: seq<Step>, one: Step, a: DaemonState, two: Step, b: DaemonState, three: Step, c: DaemonState)
    returns (trace: seq<DaemonState>, steps: seq<Step>)
    requires IsHistory(Minutely, before, taken)
    requires IsLink(before[|taken|], one, a) && IsLink(a, two, b) && IsLink(b, three, c)
    ensures IsHistory(Minutely, trace, steps) && trace == before + [a, b, c] && steps == taken + [one, two, three]
  {
    OneMoreStep(before, taken, one, a);
    OneMoreStep(before + [a], taken + [one], two, b);
    OneMoreStep(before + [a] + [b], taken + [one] + [two], three, c);
    trace, steps := before + [a] + [b] + [c], taken + [one] + [two] + [three];
    OneByOne(before, a, b, c);
    OneByOne(taken, one, two, three);
  }

  lemma OneByOne<T>(s: seq<T>, a: T, b: T, c: T)
    ensures s + [a] + [b] + [c] == s + [a, b, c]
  {
  }

  lemma BusyIsStranded()
    ensures IsStranded(Busy(true, Some(3 * MINUTE), false, false))
  {
    assert IsWaiting(Busy(true, Some(3 * MINUTE), false, false).jobs[0]);
  }

  /** Paused while a fire waits, and resumed after the run ended: nothing will start the fire. */
  lemma ResumingCanStrand() returns (trace: seq<DaemonState>, steps: seq<Step>)
    ensures Strands(trace, steps) && steps[|steps| - 1].Resume?
  {
    HoldHere(true);
    EndHere(true, true);
    HoldHere(false);
    BusyIsStranded();
    trace, steps := StrandsWhenReleased(Busy(true, None, true, true), Busy(true, None, false, true), Busy(true, Some(3 * MINUTE), false, false),
                                        Pause("busy", 2 * MINUTE), Resume("busy", 2 * MINUTE));
  }

  lemma RereadHere(enabled: bool)
    ensures Legal(Busy(!enabled, if enabled then None else Some(3 * MINUTE), !enabled, false), Reread(HOME, HomeFiles(enabled), 2 * MINUTE))
    ensures Apply(Minutely, Busy(!enabled, if enabled then None else Some(3 * MINUTE), !enabled, false), Reread(HOME, HomeFiles(enabled), 2 * MINUTE))
            == Busy(enabled, if enabled then Some(3 * MINUTE) else None, !enabled, false)
  {
    var d := Busy(!enabled, if enabled then None else Some(3 * MINUTE), !enabled, false);
    var e := Busy(enabled, if enabled then Some(3 * MINUTE) else None, !enabled, false);
    ReadsHere(enabled, d.states);
    FindsBusy(d.jobs[0]);
    assert d.registry[0].path == HOME.path;
    assert Others(d.jobs, HOME.path) == [] by {
      assert JobsIn(d.jobs[1..], Manifests(d.jobs) - {HOME.path}) == [];
    }
    var latest := JobsOf(HOME, HomeFiles(enabled), d.states);
    var carried := Replanned(Minutely, Carried(d.jobs, latest[0]), 2 * MINUTE);
    assert carried == e.jobs[0];
    assert CarriedOver(Minutely, d.jobs, latest, 2 * MINUTE) == [carried];
    assert [] + [carried] == [carried];
  }

  /** Switched off in the manifest while a fire waits, and on again after the run ended: nothing will start the fire. */
  lemma RereadingCanStrand() returns (trace: seq<DaemonState>, steps: seq<Step>)
    ensures Strands(trace, steps) && steps[|steps| - 1].Reread?
  {
    RereadHere(false);
    EndHere(false, false);
    RereadHere(true);
    BusyIsStranded();
    trace, steps := StrandsWhenReleased(Busy(false, None, true, false), Busy(false, None, false, false), Busy(true, Some(3 * MINUTE), false, false),
                                        Reread(HOME, HomeFiles(false), 2 * MINUTE), Reread(HOME, HomeFiles(true), 2 * MINUTE));
  }

  // ----- a run started while stopping -----

  /** A fresh daemon is told to stop, and a trigger still starts a run. */
  lemma TriggeringStartsWhileStopping() returns (trace: seq<DaemonState>, steps: seq<Step>)
    ensures IsFreshHistory(trace, steps) && steps == [Stop, Trigger("busy")]
    ensures trace[1].stopping && trace[1].runs == multiset{} && trace[2].stopping && trace[2].runs == multiset{"busy"}
  {
    var stopped := BeginStopping(Opened());
    trace, steps := [Opened(), stopped, Start(stopped, 0)], [Stop, Trigger("busy")];
    OpensHere();
    FindsBusy(stopped.jobs[0]);
    assert IsFreshHistory(trace, steps);
  }

  // ----- a one-time job that fires twice -----

  function OnceAt(at: Instant, catchUp: bool): JobSchedule {
    JobSchedule(None, Once(at), Skip, catchUp, true, false)
  }

  function OnceFiles(at: Instant, catchUp: bool): Files {
    Files(_ => "once", _ => Manifest([OnceAt(at, catchUp)], true))
  }

  function OnceJob(at: Instant, catchUp: bool, nextFire: Option<Instant>, running: bool, lastFire: Option<Instant>): Job {
    Job("once", HOME.path, HOME.workingDirectory, Some(OnceAt(at, catchUp)), None, nextFire, running, false,
        JobState(false, lastFire, None, None))
  }

  /** A daemon that watches the one-time job alone; `lastFire` is what it remembers of the fires. */
  function OnceDaemon(at: Instant, catchUp: bool, nextFire: Option<Instant>, running: bool, lastFire: Option<Instant>, fires: seq<Instant>): DaemonState {
    var states: States := if lastFire.None? then map[] else map["once" := JobState(false, lastFire, None, None)];
    DaemonState([HOME], states, Written(states), [OnceJob(at, catchUp, nextFire, running, lastFire)], if running then 1 else 0, 1, false, false,
                if running then multiset{"once"} else multiset{}, if fires == [] then map[] else map["once" := fires])
  }

  /** The state file read back: the last fire lost its fraction. */
  function CutStates(at: Instant): States {
    map["once" := JobState(false, Some(ToSecond(at)), None, None)]
  }

  lemma OnceOpens(at: Instant, catchUp: bool, saved: States, fires: map<string, seq<Instant>>, now: Instant)
    requires at > 0 && (saved == map[] || (saved == CutStates(at) && !IsWholeSecond(at)))
    requires if catchUp && saved != map[] then now == at else now < at
    ensures var lastFire := if saved == map[] then None else Some(ToSecond(at));
            Open(Minutely, [HOME], OnceFiles(at, catchUp), saved, 1, fires, now)
            == DaemonState([HOME], saved, saved, [OnceJob(at, catchUp, Some(at), false, lastFire)], 0, 1, false, false, multiset{}, fires)
  {
    assert [HOME][1..] == [] && Build([], OnceFiles(at, catchUp), saved) == [];
    var lastFire := if saved == map[] then None else Some(ToSecond(at));
    assert JobsOf(HOME, OnceFiles(at, catchUp), saved) == [OnceJob(at, catchUp, None, false, lastFire)];
    var jobs := Build([HOME], OnceFiles(at, catchUp), saved);
    assert jobs == [OnceJob(at, catchUp, None, false, lastFire)];
    assert Plan(Minutely, jobs[0], now, true) == OnceJob(at, catchUp, Some(at), false, lastFire);
  }

  lemma OnceFires(at: Instant, catchUp: bool, d: DaemonState, lastFire: Option<Instant>, fires: seq<Instant>)
    requires d.jobs == [OnceJob(at, catchUp, Some(at), false, lastFire)] && !d.stopping && d.running == 0 && d.limit == 1 && d.runs == multiset{}
    requires d.registry == [HOME] && !d.exiting && FiresOf(d.fires, "once") == fires && d.fires.Keys <= {"once"} && d.states.Keys <= {"once"}
    ensures Fire(Minutely, d, 0, at) == OnceDaemon(at, catchUp, None, true, Some(at), fires + [at])
  {
    var e := OnceDaemon(at, catchUp, None, true, Some(at), fires + [at]);
    var started := Start(NoteFire(d, 0, at), 0);
    assert started.jobs == [OnceJob(at, catchUp, Some(at), true, Some(at))];
    assert SaveState(started, 0).states == e.states;
    assert started.fires == e.fires;
    assert PlanJob(Minutely, SaveState(started, 0), 0, at, false).jobs == e.jobs;
  }

  lemma OnceTicks(at: Instant, catchUp: bool, d: DaemonState, lastFire: Option<Instant>, fires: seq<Instant>)
    requires d.jobs == [OnceJob(at, catchUp, Some(at), false, lastFire)] && !d.stopping && d.running == 0 && d.limit == 1 && d.runs == multiset{}
    requires d.registry == [HOME] && !d.exiting && FiresOf(d.fires, "once") == fires && d.fires.Keys <= {"once"} && d.states.Keys <= {"once"}
    ensures Apply(Minutely, d, Tick(at)) == OnceDaemon(at, catchUp, None, true, Some(at), fires + [at])
  {
    TickHere(d, at);
    OnceFires(at, catchUp, d, lastFire, fires);
  }

  lemma OnceEnds(at: Instant, catchUp: bool)
    ensures IsLink(OnceDaemon(at, catchUp, None, true, Some(at), [at]), End("once", RunOutcome(None, None)),
                   OnceDaemon(at, catchUp, None, false, Some(at), [at]))
  {
    var d, e := OnceDaemon(at, catchUp, None, true, Some(at), [at]), OnceDaemon(at, catchUp, None, false, Some(at), [at]);
    assert Find(d.jobs, "once") == Some(0);
    var ended := NoteEnd(d, "once", RunOutcome(None, None));
    assert ended.jobs == e.jobs && ended.states == e.states;
    assert FirstWaiting(e.jobs, 1) == None;
    assert StartWaiting(e) == e;
  }

  /** The daemon that starts again a moment later, or within the same second by a clock that was set back. */
  function Again(at: Instant, catchUp: bool): Step {
    Restart([HOME], OnceFiles(at, catchUp), CutStates(at), 1, if catchUp then at else ToSecond(at))
  }

  function Reopened(at: Instant, catchUp: bool): DaemonState {
    DaemonState([HOME], CutStates(at), CutStates(at), [OnceJob(at, catchUp, Some(at), false, Some(ToSecond(at)))], 0, 1, false, false,
                multiset{}, map["once" := [at]])
  }

  lemma OnceRestarts(at: Instant, catchUp: bool)
    requires !IsWholeSecond(at)
    ensures IsLink(OnceDaemon(at, catchUp, None, false, Some(at), [at]), Again(at, catchUp), Reopened(at, catchUp))
  {
    var d := OnceDaemon(at, catchUp, None, false, Some(at), [at]);
    assert d.saved == CutStates(at);
    assert at % SECOND > 0 && "once" in CutStates(at);
    assert Written(CutStates(at)) == CutStates(at);
    OnceOpens(at, catchUp, CutStates(at), d.fires, if catchUp then at else ToSecond(at));
    assert [HOME][1..] == [] && Build([], OnceFiles(at, catchUp), CutStates(at)) == [];
    assert |Build([HOME], OnceFiles(at, catchUp), CutStates(at))| == 1;
  }

  lemma FirstFire(at: Instant, catchUp: bool)
    requires at > 0
    ensures Open(Minutely, [HOME], OnceFiles(at, catchUp), map[], 1, map[], 0) == OnceDaemon(at, catchUp, Some(at), false, None, [])
    ensures IsLink(OnceDaemon(at, catchUp, Some(at), false, None, []), Tick(at), OnceDaemon(at, catchUp, None, true, Some(at), [at]))
  {
    OnceOpens(at, catchUp, map[], map[], 0);
    assert Written(map[]) == map[];
    assert [] + [at] == [at];
    OnceTicks(at, catchUp, OnceDaemon(at, catchUp, Some(at), false, None, []), None, []);
  }

  lemma SecondFire(at: Instant, catchUp: bool)
    ensures IsLink(Reopened(at, catchUp), Tick(at), OnceDaemon(at, catchUp, None, true, Some(at), [at, at]))
  {
    assert [at] + [at] == [at, at];
    OnceTicks(at, catchUp, Reopened(at, catchUp), Some(ToSecond(at)), [at]);
  }

  /**
   * A one-time job at any instant with a fraction of a second, watched and unchanged all along, fires twice in
   * some history: the state file cuts its last fire to a time before the instant it names.
   */
  lemma FractionsCanFireTwice(at: Instant, catchUp: bool) returns (trace: seq<DaemonState>, steps: seq<Step>)
    requires !IsWholeSecond(at)
    ensures IsHistory(Minutely, trace, steps) && trace[0] == Open(Minutely, [HOME], OnceFiles(at, catchUp), map[], 1, map[], 0)
    ensures forall n :: 0 <= n < |trace| ==> WatchesOnce(trace[n], "once", at)
    ensures FiresOf(trace[0].fires, "once") == [] && FiresOf(trace[|steps|].fires, "once") == [at, at]
  {
    FirstFire(at, catchUp);
    OnceEnds(at, catchUp);
    OnceRestarts(at, catchUp);
    SecondFire(at, catchUp);
    trace, steps := FourSteps(OnceDaemon(at, catchUp, Some(at), false, None, []), OnceDaemon(at, catchUp, None, true, Some(at), [at]),
                              OnceDaemon(at, catchUp, None, false, Some(at), [at]), Reopened(at, catchUp),
                              OnceDaemon(at, catchUp, None, true, Some(at), [at, at]),
                              Tick(at), End("once", RunOutcome(None, None)), Again(at, catchUp), Tick(at), at);
  }

  lemma FourSteps(a: DaemonState, b: DaemonState, c: DaemonState, d: DaemonState, e: DaemonState,
                  one: Step, two: Step, three: Step, four: Step, at: Instant)
    returns (trace: seq<DaemonState>, steps: seq<Step>)
    requires IsLink(a, one, b) && IsLink(b, two, c) && IsLink(c, three, d) && IsLink(d, four, e)
    requires forall s :: s in {a, b, c, d, e} ==> |s.jobs| == 1 && IsOnce(s.jobs[0], "once", at)
    ensures IsHistory(Minutely, trace, steps) && |steps| == 4 && trace[0] == a && trace[4] == e
    ensures forall n :: 0 <= n < |trace| ==> WatchesOnce(trace[n], "once", at)
  {
    trace, steps := LinkFour(a, b, c, d, e, one, two, three, four);
    FiveWatchOnce(a, b, c, d, e, at);
  }

  lemma LinkFour(a: DaemonState, b: DaemonState, c: DaemonState, d: DaemonState, e: DaemonState,
                 one: Step, two: Step, three: Step, four: Step)
    returns (trace: seq<DaemonState>, steps: seq<Step>)
    requires IsLink(a, one, b) && IsLink(b, two, c) && IsLink(c, three, d) && IsLink(d, four, e)
    ensures IsHistory(Minutely, trace, steps) && |steps| == 4 && trace == [a, b, c, d, e]
  {
    NoStepYet(a);
    OneMoreStep([a], [], one, b);
    StartsWith(a, b, c, d, e);
    trace, steps := ThreeMoreSteps([a] + [b], [] + [one], two, c, three, d, four, e);
  }

  lemma StartsWith<T>(a: T, b: T, c: T, d: T, e: T)
    ensures [a] + [b] + [c, d, e] == [a, b, c, d, e]
  {
  }

  lemma FiveWatchOnce(a: DaemonState, b: DaemonState, c: DaemonState, d: DaemonState, e: DaemonState, at: Instant)
    requires forall s :: s in {a, b, c, d, e} ==> |s.jobs| == 1 && IsOnce(s.jobs[0], "once", at)
    ensures forall n :: 0 <= n < 5 ==> WatchesOnce([a, b, c, d, e][n], "once", at)
  {
    var trace := [a, b, c, d, e];
    forall n | 0 <= n < 5 ensures WatchesOnce(trace[n], "once", at) {
      assert trace[n] in {a, b, c, d, e};
      assert IsOnce(trace[n].jobs[0], "once", at);
    }
  }
}
