/** Running a validated workflow in waves. */
module Runner {
  import opened Outcomes
  import opened Templates
  import opened Graphs
  import opened Workflows
  import opened Executions
  import opened Streams
  import opened Meanings
  import opened Recording
  import opened Waves

  /** The caller's callback: it sees every event, and may refuse to go on. */
  class Reporter {
    const accepts: seq<RunEvent> -> bool
    var log: seq<RunEvent>

    constructor (accepts: seq<RunEvent> -> bool)
      ensures this.accepts == accepts && log == []
    {
      this.accepts := accepts;
      this.log := [];
    }

    method OnEvent(event: RunEvent) returns (accepted: bool)
      modifies this`log
      ensures log == old(log) + [event] && accepted == accepts(log)
    {
      log := log + [event];
      accepted := accepts(log);
    }

    /** The last event is one the callback refused. */
    ghost predicate Refused()
      reads this
    {
      log != [] && !accepts(log)
    }
  }

  // ----- rendering -----

  function AfterTexts(rendered: seq<string>, rest: Result<seq<string>, RunError>): Result<seq<string>, RunError> {
    if rest.Err? then rest else Ok(rendered + rest.value)
  }

  method RenderText(w: Workflow, host: Host, outputs: Outputs, text: string) returns (r: Result<string, RunError>)
    ensures r == FillText(w, host, outputs, text)
  {
    var template := Parse(text);
    if template.Err? {
      return Err(InvalidText(template.error));
    }
    var rendered := Render(template.value, Lookups(w, host, outputs));
    if rendered.Err? {
      return Err(NoOutputYet(rendered.error));
    }
    r := Ok(rendered.value);
  }

  lemma OneTextFills(w: Workflow, host: Host, outputs: Outputs, texts: seq<string>, i: nat, rendered: seq<string>)
    requires i < |texts|
    ensures var text := FillText(w, host, outputs, texts[i]);
            AfterTexts(rendered, FillTexts(w, host, outputs, texts[i..])) ==
            if text.Err? then Err(text.error)
            else AfterTexts(rendered + [text.value], FillTexts(w, host, outputs, texts[i + 1..]))
  {
    assert texts[i..][0] == texts[i] && texts[i..][1..] == texts[i + 1..];
    var text, rest := FillText(w, host, outputs, texts[i]), FillTexts(w, host, outputs, texts[i + 1..]);
    if text.Ok? && rest.Ok? {
      assert rendered + ([text.value] + rest.value) == (rendered + [text.value]) + rest.value;
    }
  }

  lemma NoTextsFilled(rest: Result<seq<string>, RunError>)
    ensures AfterTexts([], rest) == rest
  {
    if rest.Ok? {
      assert [] + rest.value == rest.value;
    }
  }

  /** Fills each text of a request in turn. */
  method RenderRequest(w: Workflow, host: Host, request: TaskRequest, outputs: Outputs) returns (r: Result<TaskRequest, RunError>)
    ensures r == Fill(w, host, outputs, request)
  {
    var texts := request.Texts();
    var rendered: seq<string> := [];
    assert texts[0..] == texts;
    NoTextsFilled(FillTexts(w, host, outputs, texts));
    for i := 0 to |texts|
      invariant |rendered| == i
      invariant FillTexts(w, host, outputs, texts) == AfterTexts(rendered, FillTexts(w, host, outputs, texts[i..]))
    {
      OneTextFills(w, host, outputs, texts, i, rendered);
      var text := RenderText(w, host, outputs, texts[i]);
      if text.Err? {
        return Err(text.error);
      }
      rendered := rendered + [text.value];
    }
    assert texts[|texts|..] == [];
    assert rendered + [] == rendered;
    r := Ok(request.WithTexts(rendered));
  }

  // ----- starting -----

  /** The log gained `news(v)` at its end for each task `v`. */
  ghost predicate LogGains(before: seq<RunEvent>, after: seq<RunEvent>, news: nat -> seq<RunEvent>) {
    forall v: nat :: Project(after, v) == Project(before, v) + news(v)
  }

  ghost function StartNews(started: seq<nat>): nat -> seq<RunEvent> {
    (v: nat) => if v in started then [Started(v)] else []
  }

  predicate IsRequestOf(w: Workflow, v: nat, started: (nat, TaskRequest)) {
    v < |w.tasks| && started == (v, w.tasks[v].request)
  }

  /** The first `i` ready tasks are running, reported and listed. */
  ghost predicate Launching(w: Workflow, ready: seq<nat>, i: nat, before: Statuses, statuses: Statuses,
                            logBefore: seq<RunEvent>, log: seq<RunEvent>, started: seq<(nat, TaskRequest)>) {
    && i <= |ready| && Launched(ready[..i], before, statuses) && LogGains(logBefore, log, StartNews(ready[..i]))
    && |started| == i && forall j :: 0 <= j < i ==> IsRequestOf(w, ready[j], started[j])
  }

  lemma NothingLaunched(w: Workflow, ready: seq<nat>, statuses: Statuses, log: seq<RunEvent>)
    ensures Launching(w, ready, 0, statuses, statuses, log, log, [])
  {
    assert forall v: nat :: Project(log, v) + [] == Project(log, v);
  }

  lemma OneMoreLaunched(w: Workflow, g: Graph, ready: seq<nat>, i: nat, before: Statuses, statuses: Statuses,
                        logBefore: seq<RunEvent>, log: seq<RunEvent>, started: seq<(nat, TaskRequest)>, one: (nat, TaskRequest))
    requires Launching(w, ready, i, before, statuses, logBefore, log, started) && i < |ready|
    requires |g| == |before| && ready == ReadyTasks(g, before, 0) && IsRequestOf(w, ready[i], one)
    ensures ready[i] < |statuses| && Launching(w, ready, i + 1, before, statuses[ready[i] := Running], logBefore, log + [Started(ready[i])], started + [one])
  {
    StillReady(g, before, ready, statuses, i);
    assert ready[i] in ready;
    LaunchOneMore(before, statuses, ready, i);
    StartIsReported(logBefore, log, ready[..i], ready[i]);
  }

  /** Starts everything that is ready and collects the requests. */
  method StartReadyTasks(execution: WorkflowExecution, reporter: Reporter)
    returns (r: Result<seq<(nat, TaskRequest)>, RunError>, ghost ready: seq<nat>)
    requires |execution.statuses| == |execution.workflow.tasks|
    modifies execution`statuses, reporter`log
    ensures ready == ReadyTasks(GraphOf(execution.workflow), old(execution.statuses), 0)
    ensures r.Err? ==> r.error == CallbackFailed && reporter.Refused()
    ensures r.Ok? ==> Launched(ready, old(execution.statuses), execution.statuses)
    ensures r.Ok? ==> LogGains(old(reporter.log), reporter.log, StartNews(ready))
    ensures r.Ok? ==> |r.value| == |ready|
                      && forall i :: 0 <= i < |ready| ==> IsRequestOf(execution.workflow, ready[i], r.value[i])
  {
    var tasks := execution.Ready();
    ready := tasks;
    var w := execution.workflow;
    ghost var before, logBefore := execution.statuses, reporter.log;
    var started: seq<(nat, TaskRequest)> := [];
    NothingLaunched(w, ready, before, logBefore);
    for i := 0 to |tasks|
      invariant Launching(w, ready, i, before, execution.statuses, logBefore, reporter.log, started)
    {
      StillReady(GraphOf(w), before, ready, execution.statuses, i);
      ghost var statuses, log := execution.statuses, reporter.log;
      var launched := StartTask(execution, reporter, tasks[i]);
      if launched.Err? {
        return Err(launched.error), ready;
      }
      OneMoreLaunched(w, GraphOf(w), ready, i, before, statuses, logBefore, log, started, launched.value);
      started := started + [launched.value];
    }
    assert ready[..|ready|] == ready;
    r := Ok(started);
  }

  /** Starts one ready task and reports it; the answer is its request. */
  method StartTask(execution: WorkflowExecution, reporter: Reporter, index: nat) returns (r: Result<(nat, TaskRequest), RunError>)
    requires IsReady(GraphOf(execution.workflow), execution.statuses, index)
    modifies execution`statuses, reporter`log
    ensures r.Err? ==> r.error == CallbackFailed && reporter.Refused()
    ensures r.Ok? ==> execution.statuses == old(execution.statuses)[index := Running]
    ensures r.Ok? ==> reporter.log == old(reporter.log) + [Started(index)] && IsRequestOf(execution.workflow, index, r.value)
  {
    var task := execution.Start(index);
    if task.None? {
      return Err(NotReady);
    }
    var accepted := reporter.OnEvent(Started(index));
    if !accepted {
      return Err(CallbackFailed);
    }
    r := Ok((index, task.value.request));
  }

  lemma StillReady(g: Graph, before: Statuses, ready: seq<nat>, statuses: Statuses, i: nat)
    requires |g| == |before| && ready == ReadyTasks(g, before, 0) && i < |ready|
    requires Launched(ready[..i], before, statuses)
    ensures IsReady(g, statuses, ready[i])
  {
    var v := ready[i];
    assert v in ready;
    assert v !in ready[..i];
    assert forall d :: d in ready[..i] ==> d in ready;
    forall d | d in g[v] ensures d < |statuses| && statuses[d] == Succeeded {
      assert before[d] == Succeeded;
      assert d !in ready;
    }
  }

  lemma LaunchOneMore(before: Statuses, statuses: Statuses, ready: seq<nat>, i: nat)
    requires i < |ready| && ready[i] < |before| && Launched(ready[..i], before, statuses)
    ensures Launched(ready[..i + 1], before, statuses[ready[i] := Running])
    ensures ready[..i + 1] == ready[..i] + [ready[i]]
  {
    assert ready[..i + 1] == ready[..i] + [ready[i]];
  }

  lemma StartNewsGrows(started: seq<nat>, index: nat, v: nat)
    requires index !in started
    ensures StartNews(started + [index])(v) == if v == index then StartNews(started)(v) + [Started(index)] else StartNews(started)(v)
  {
    assert v in started + [index] <==> v in started || v == index;
  }

  lemma StartIsReported(before: seq<RunEvent>, log: seq<RunEvent>, started: seq<nat>, index: nat)
    requires LogGains(before, log, StartNews(started)) && index !in started
    ensures LogGains(before, log + [Started(index)], StartNews(started + [index]))
  {
    forall v: nat ensures Project(log + [Started(index)], v) == Project(before, v) + StartNews(started + [index])(v) {
      StartNewsGrows(started, index, v);
      OneMoreNews(before, log, Started(index), v, StartNews(started)(v));
    }
  }

  lemma OneMoreNews(before: seq<RunEvent>, log: seq<RunEvent>, event: RunEvent, v: nat, news: seq<RunEvent>)
    requires Project(log, v) == Project(before, v) + news
    ensures Project(log + [event], v) == Project(before, v) + if event.task == v then news + [event] else news
  {
    ProjectAppend(log, event, v);
    if event.task == v {
      assert Project(before, v) + news + [event] == Project(before, v) + (news + [event]);
    } else {
      assert Project(log, v) + [] == Project(log, v);
    }
  }

  // ----- running concurrently -----

  type Job = (nat, Execution)

  predicate DistinctJobs(jobs: seq<Job>) {
    forall i, j :: 0 <= i < j < |jobs| ==> jobs[i].0 != jobs[j].0
  }

  function TotalWork(threads: seq<Thread>): nat {
    if threads == [] then 0 else Work(threads[0]) + TotalWork(threads[1..])
  }

  lemma {:induction false} TotalWorkFalls(threads: seq<Thread>, k: nat, thread: Thread)
    requires k < |threads| && Work(thread) < Work(threads[k])
    ensures TotalWork(threads[k := thread]) < TotalWork(threads)
  {
    if k == 0 {
      assert threads[k := thread][1..] == threads[1..];
    } else {
      assert threads[k := thread][1..] == threads[1..][k - 1 := thread];
      TotalWorkFalls(threads[1..], k - 1, thread);
    }
  }

  /** Each task's events since the wave began are `stories`, and no other task has any. */
  ghost predicate LogTells(before: seq<RunEvent>, log: seq<RunEvent>, jobs: seq<Job>, stories: seq<seq<RunEvent>>) {
    && |stories| == |jobs|
    && (forall k :: 0 <= k < |jobs| ==> Project(log, jobs[k].0) == Project(before, jobs[k].0) + stories[k])
    && (forall v: nat :: (forall k :: 0 <= k < |jobs| ==> jobs[k].0 != v) ==> Project(log, v) == Project(before, v))
  }

  ghost predicate ThreadsTell(jobs: seq<Job>, threads: seq<Thread>, stories: seq<seq<RunEvent>>) {
    && |threads| == |stories| == |jobs|
    && (forall k :: 0 <= k < |jobs| ==> Telling(jobs[k].0, jobs[k].1, threads[k], stories[k]))
  }

  /** The outcomes gathered are those of the threads that ended, each once. */
  ghost predicate Gathered(jobs: seq<Job>, threads: seq<Thread>, outcomes: seq<TaskOutcome>) {
    && |threads| == |jobs|
    && DistinctTasks(outcomes)
    && (forall k :: 0 <= k < |jobs| && threads[k].Ended? ==> (jobs[k].0, OutcomeOf(jobs[k].1)) in outcomes)
    && (forall i :: 0 <= i < |outcomes| ==> IsOutcomeOfEnded(jobs, threads, outcomes[i]))
  }

  ghost predicate IsOutcomeOfEnded(jobs: seq<Job>, threads: seq<Thread>, outcome: TaskOutcome)
    requires |threads| == |jobs|
  {
    exists k :: 0 <= k < |jobs| && threads[k].Ended? && outcome == (jobs[k].0, OutcomeOf(jobs[k].1))
  }

  /**
   * Runs the jobs side by side. Which thread moves next is not determined, so
   * the outcomes come back in any completion order.
   */
  method RunRequestsConcurrently(jobs: seq<Job>, reporter: Reporter)
    returns (r: Result<seq<TaskOutcome>, RunError>, ghost stories: seq<seq<RunEvent>>)
    requires DistinctJobs(jobs)
    modifies reporter`log
    ensures r.Err? ==> r.error == CallbackFailed && reporter.Refused()
    ensures r.Ok? ==> LogTells(old(reporter.log), reporter.log, jobs, stories)
    ensures r.Ok? ==> forall k :: 0 <= k < |jobs| ==> Told(jobs[k].0, OutcomeOf(jobs[k].1), stories[k])
    ensures r.Ok? ==> DistinctTasks(r.value)
    ensures r.Ok? ==> forall k :: 0 <= k < |jobs| ==> (jobs[k].0, OutcomeOf(jobs[k].1)) in r.value
    ensures r.Ok? ==> forall x :: x in r.value ==> exists k :: 0 <= k < |jobs| && x == (jobs[k].0, OutcomeOf(jobs[k].1))
  {
    var threads: seq<Thread> := seq(|jobs|, k requires 0 <= k < |jobs| => Starting(jobs[k].1));
    var outcomes: seq<TaskOutcome> := [];
    stories := seq(|jobs|, _ => []);
    while !forall k :: 0 <= k < |threads| ==> threads[k].Ended?
      invariant ThreadsTell(jobs, threads, stories)
      invariant LogTells(old(reporter.log), reporter.log, jobs, stories)
      invariant Gathered(jobs, threads, outcomes)
      decreases TotalWork(threads)
    {
      var k :| 0 <= k < |threads| && !threads[k].Ended?;
      SomeMoveEnabled(threads[k]);
      var move :| move in MOVES && Enabled(threads[k], move);
      var thread, moved := threads[k], Moved(threads[k], move);
      var event := EventOf(jobs[k].0, thread, move);
      MoveIsWork(thread, move);
      TotalWorkFalls(threads, k, moved);
      MoveIsTold(old(reporter.log), reporter.log, jobs, threads, stories, k, move);
      MoveIsGathered(jobs, threads, stories, outcomes, k, move);
      outcomes := if move.End? then outcomes + [(jobs[k].0, ResultOf(thread))] else outcomes;
      if event.Some? {
        var accepted := reporter.OnEvent(event.value);
        if !accepted {
          return Err(CallbackFailed), stories;
        }
      }
      threads := threads[k := moved];
      stories := stories[k := Extended(stories[k], event)];
    }
    r := Ok(outcomes);
  }

  lemma MoveIsTold(before: seq<RunEvent>, log: seq<RunEvent>, jobs: seq<Job>, threads: seq<Thread>, stories: seq<seq<RunEvent>>, k: nat, move: Move)
    requires LogTells(before, log, jobs, stories) && ThreadsTell(jobs, threads, stories)
    requires DistinctJobs(jobs) && k < |jobs| && Enabled(threads[k], move)
    ensures var event := EventOf(jobs[k].0, threads[k], move);
            && LogTells(before, Extended(log, event), jobs, stories[k := Extended(stories[k], event)])
            && ThreadsTell(jobs, threads[k := Moved(threads[k], move)], stories[k := Extended(stories[k], event)])
  {
    var event := EventOf(jobs[k].0, threads[k], move);
    ThreadTells(jobs, threads, stories, k, move);
    if event.Some? {
      EventIsTold(before, log, jobs, stories, k, event.value);
    } else {
      assert stories[k := stories[k]] == stories;
    }
  }

  lemma ThreadTells(jobs: seq<Job>, threads: seq<Thread>, stories: seq<seq<RunEvent>>, k: nat, move: Move)
    requires ThreadsTell(jobs, threads, stories) && k < |jobs| && Enabled(threads[k], move)
    ensures ThreadsTell(jobs, threads[k := Moved(threads[k], move)],
                        stories[k := Extended(stories[k], EventOf(jobs[k].0, threads[k], move))])
  {
    assert Telling(jobs[k].0, jobs[k].1, threads[k], stories[k]);
    MoveKeepsTelling(jobs[k].0, jobs[k].1, threads[k], stories[k], move);
  }

  lemma EventIsTold(before: seq<RunEvent>, log: seq<RunEvent>, jobs: seq<Job>, stories: seq<seq<RunEvent>>, k: nat, event: RunEvent)
    requires LogTells(before, log, jobs, stories) && DistinctJobs(jobs) && k < |jobs| && event.task == jobs[k].0
    ensures LogTells(before, log + [event], jobs, stories[k := stories[k] + [event]])
  {
    forall i | 0 <= i < |jobs|
      ensures Project(log + [event], jobs[i].0) == Project(before, jobs[i].0) + stories[k := stories[k] + [event]][i]
    {
      OneMoreNews(before, log, event, jobs[i].0, stories[i]);
    }
    forall v: nat | forall i :: 0 <= i < |jobs| ==> jobs[i].0 != v ensures Project(log + [event], v) == Project(before, v) {
      assert event.task != v;
      ProjectAppend(log, event, v);
      assert Project(log, v) + [] == Project(log, v);
    }
  }

  lemma MoveIsGathered(jobs: seq<Job>, threads: seq<Thread>, stories: seq<seq<RunEvent>>, outcomes: seq<TaskOutcome>, k: nat, move: Move)
    requires Gathered(jobs, threads, outcomes) && ThreadsTell(jobs, threads, stories) && DistinctJobs(jobs)
    requires k < |jobs| && Enabled(threads[k], move)
    ensures Gathered(jobs, threads[k := Moved(threads[k], move)],
                     if move.End? then outcomes + [(jobs[k].0, ResultOf(threads[k]))] else outcomes)
  {
    assert Telling(jobs[k].0, jobs[k].1, threads[k], stories[k]);
    MoveKeepsTelling(jobs[k].0, jobs[k].1, threads[k], stories[k], move);
    var moved := Moved(threads[k], move);
    if move.End? {
      EndIsGathered(jobs, threads, outcomes, k, moved);
    } else {
      OthersStayGathered(jobs, threads, outcomes, k, moved);
    }
  }

  /** A thread that has not ended has no outcome yet, and what is gathered stays. */
  lemma OthersStayGathered(jobs: seq<Job>, threads: seq<Thread>, outcomes: seq<TaskOutcome>, k: nat, moved: Thread)
    requires Gathered(jobs, threads, outcomes) && DistinctJobs(jobs) && k < |jobs| && !threads[k].Ended?
    ensures forall i :: 0 <= i < |outcomes| ==> outcomes[i].0 != jobs[k].0 && IsOutcomeOfEnded(jobs, threads[k := moved], outcomes[i])
    ensures !moved.Ended? ==> Gathered(jobs, threads[k := moved], outcomes)
  {
    var after := threads[k := moved];
    forall i | 0 <= i < |outcomes| ensures outcomes[i].0 != jobs[k].0 && IsOutcomeOfEnded(jobs, after, outcomes[i]) {
      assert IsOutcomeOfEnded(jobs, threads, outcomes[i]);
      var j :| 0 <= j < |jobs| && threads[j].Ended? && outcomes[i] == (jobs[j].0, OutcomeOf(jobs[j].1));
      assert after[j].Ended?;
    }
  }

  lemma EndIsGathered(jobs: seq<Job>, threads: seq<Thread>, outcomes: seq<TaskOutcome>, k: nat, moved: Thread)
    requires Gathered(jobs, threads, outcomes) && DistinctJobs(jobs) && k < |jobs| && !threads[k].Ended? && moved.Ended?
    ensures Gathered(jobs, threads[k := moved], outcomes + [(jobs[k].0, OutcomeOf(jobs[k].1))])
  {
    OthersStayGathered(jobs, threads, outcomes, k, moved);
    var after, last := threads[k := moved], (jobs[k].0, OutcomeOf(jobs[k].1));
    var all := outcomes + [last];
    assert after[k].Ended? && all[|outcomes|] == last;
    assert IsOutcomeOfEnded(jobs, after, last);
    forall i | 0 <= i < |jobs| && after[i].Ended? ensures (jobs[i].0, OutcomeOf(jobs[i].1)) in all {
      if i != k {
        assert threads[i].Ended?;
      }
    }
  }

  // ----- the whole run -----

  /** The report of a task from its start to its end. */
  predicate CompleteStory(v: nat, outcome: Outcome, events: seq<RunEvent>) {
    |events| >= 1 && events[0] == Started(v) && Told(v, outcome, events[1..])
  }

  ghost predicate ReportedAfter(w: Workflow, host: Host, k: nat, log: seq<RunEvent>)
    requires Runnable(w)
  {
    forall v: nat :: v < |w.tasks| ==>
      if Ran(w, host, k, v) then CompleteStory(v, Meaning(w, host, v).value, Project(log, v)) else Project(log, v) == []
  }

  /** Every task is reported from start to end, or reported once as blocked. */
  ghost predicate FullyReported(w: Workflow, host: Host, log: seq<RunEvent>)
    requires Runnable(w)
  {
    forall v: nat :: v < |w.tasks| ==>
      match Meaning(w, host, v)
      case Some(outcome) => CompleteStory(v, outcome, Project(log, v))
      case None => Project(log, v) == [Blocked(v)]
  }

  /** `waves` is enough for every task that runs, and the last wave ran one. */
  ghost predicate WavesNeeded(w: Workflow, host: Host, waves: nat)
    requires Runnable(w)
  {
    && (forall v: nat :: v < |w.tasks| && Meaning(w, host, v).Some? ==> Depth(GraphOf(w), v) <= waves)
    && LastWaveRan(w, host, waves)
  }

  /** The last wave ran a task. */
  ghost predicate LastWaveRan(w: Workflow, host: Host, waves: nat)
    requires Runnable(w)
  {
    waves > 0 ==> exists v: nat :: v < |w.tasks| && Meaning(w, host, v).Some? && Depth(GraphOf(w), v) == waves
  }

  /** The state between two waves. */
  ghost predicate BetweenWaves(w: Workflow, host: Host, waves: nat, statuses: Statuses, outputs: Outputs, exitStatus: int, log: seq<RunEvent>)
    requires Runnable(w)
  {
    After(w, host, waves, statuses, outputs, exitStatus) && ReportedAfter(w, host, waves, log) && LastWaveRan(w, host, waves)
  }

  /** What a run that ended well says. */
  ghost predicate IsDone(w: Workflow, host: Host, waves: nat, exitStatus: int, log: seq<RunEvent>)
    requires Runnable(w)
  {
    && ExitAfter(w, host, waves, exitStatus) && NoErrorAfter(w, host, waves)
    && WavesNeeded(w, host, waves) && FullyReported(w, host, log)
  }

  function PendingSet(statuses: Statuses): set<nat> {
    set v: nat | v < |statuses| && statuses[v] == Pending
  }

  method PrepareJobs(w: Workflow, host: Host, started: seq<(nat, TaskRequest)>, outputs: Outputs)
    returns (r: Result<seq<Job>, RunError>)
    ensures r.Ok? ==> |r.value| == |started| && forall i :: 0 <= i < |started| ==> IsJobOf(w, host, outputs, started[i], r.value[i])
    ensures r.Err? ==> exists i :: 0 <= i < |started| && Fill(w, host, outputs, started[i].1).Err?
  {
    var jobs: seq<Job> := [];
    for i := 0 to |started|
      invariant |jobs| == i
      invariant forall j :: 0 <= j < i ==> IsJobOf(w, host, outputs, started[j], jobs[j])
    {
      var (index, request) := started[i];
      var filled := RenderRequest(w, host, request, outputs);
      if filled.Err? {
        return Err(filled.error);
      }
      jobs := jobs + [(index, host.execute(index, filled.value))];
    }
    r := Ok(jobs);
  }

  predicate IsJobOf(w: Workflow, host: Host, outputs: Outputs, started: (nat, TaskRequest), job: Job) {
    match Fill(w, host, outputs, started.1)
    case Err(_) => false
    case Ok(request) => job == (started.0, host.execute(started.0, request))
  }

  /** Emits one blocked event for each task still pending when nothing can start. */
  method ReportBlocked(w: Workflow, host: Host, execution: WorkflowExecution, reporter: Reporter, ghost k: nat, ghost log: seq<RunEvent>)
    returns (r: Result<(), RunError>)
    requires Runnable(w) && StatusesAfter(w, host, k, execution.statuses) && ReportedAfter(w, host, k, log)
    requires forall v: nat :: v < |w.tasks| && Meaning(w, host, v).Some? ==> Depth(GraphOf(w), v) <= k
    requires LogGains(log, reporter.log, StartNews([]))
    modifies reporter`log
    ensures r.Err? ==> r.error == CallbackFailed && reporter.Refused()
    ensures r.Ok? ==> FullyReported(w, host, reporter.log)
  {
    var blocked := execution.PendingTasks();
    ghost var unreported := reporter.log;
    r := EmitBlocked(blocked, reporter);
    if r.Err? {
      return;
    }
    BlockedTasks(w, host, k, execution.statuses);
    AllReported(w, host, k, log, unreported, reporter.log, blocked);
  }

  method EmitBlocked(blocked: seq<nat>, reporter: Reporter) returns (r: Result<(), RunError>)
    requires Distinct(blocked)
    modifies reporter`log
    ensures r.Err? ==> r.error == CallbackFailed && reporter.Refused()
    ensures r.Ok? ==> LogGains(old(reporter.log), reporter.log, BlockedNews(blocked))
  {
    assert forall v: nat :: Project(reporter.log, v) + [] == Project(reporter.log, v);
    for i := 0 to |blocked|
      invariant LogGains(old(reporter.log), reporter.log, BlockedNews(blocked[..i]))
    {
      ghost var log := reporter.log;
      var accepted := reporter.OnEvent(RunEvent.Blocked(blocked[i]));
      if !accepted {
        return Err(CallbackFailed);
      }
      BlockIsReported(old(reporter.log), log, blocked[..i], blocked[i]);
      assert blocked[..i + 1] == blocked[..i] + [blocked[i]];
    }
    assert blocked[..|blocked|] == blocked;
    r := Ok(());
  }

  /** Why a run failed: a callback that refused, or its first process error, with everything that ran reported. */
  ghost predicate Explains(w: Workflow, host: Host, waves: nat, error: RunError, refused: bool, log: seq<RunEvent>)
    requires Runnable(w)
  {
    match error
    case ProcessFailed(kind) => FirstErrorAfter(w, host, waves, kind) && ReportedAfter(w, host, waves, log)
    case CallbackFailed => refused
    case _ => false
  }

  /** Fills, runs and records the tasks that were just started. */
  method RunWave(w: Workflow, host: Host, execution: WorkflowExecution, reporter: Reporter, started: seq<(nat, TaskRequest)>,
                 readTasks: set<nat>, outputs: Outputs, exitStatus: int,
                 ghost k: nat, ghost ready: seq<nat>, ghost before: Statuses, ghost log: seq<RunEvent>)
    returns (r: Result<(), RunError>, newOutputs: Outputs, newStatus: int)
    requires Runnable(w) && readTasks == ReadTasks(w)
    requires After(w, host, k, before, outputs, exitStatus) && ReportedAfter(w, host, k, log)
    requires ready == ReadyTasks(GraphOf(w), before, 0) && Launched(ready, before, execution.statuses) && StartedWave(w, ready, started)
    requires LogGains(log, reporter.log, StartNews(ready))
    modifies execution`statuses, reporter`log
    ensures r.Ok? ==> After(w, host, k + 1, execution.statuses, newOutputs, newStatus) && ReportedAfter(w, host, k + 1, reporter.log)
    ensures r.Err? ==> Explains(w, host, k + 1, r.error, reporter.Refused(), reporter.log)
  {
    newOutputs, newStatus := outputs, exitStatus;
    ReadyIsNextWave(w, host, k, before);
    var jobs := PrepareJobs(w, host, started, outputs);
    if jobs.Err? {
      r := Err(jobs.error);
      WaveJobsFill(w, host, k, before, outputs, ready, started);
      return;
    }
    WaveJobs(w, host, k, before, outputs, ready, started, jobs.value);
    ghost var startedLog := reporter.log;
    var outcomes, stories := RunRequestsConcurrently(jobs.value, reporter);
    if outcomes.Err? {
      return Err(outcomes.error), newOutputs, newStatus;
    }
    WaveReported(w, host, k, ready, log, startedLog, reporter.log, jobs.value, stories);
    WaveIsRecorded(w, host, k, ready, before, Ledger(execution.statuses, outputs, exitStatus, None), jobs.value, outcomes.value);
    r, newOutputs, newStatus := RecordOutcomes(execution, outcomes.value, readTasks, outputs, exitStatus);
  }

  /** Starts what is ready and runs it, or, when nothing is ready, reports what is blocked and ends. */
  method RunNextWave(w: Workflow, host: Host, execution: WorkflowExecution, reporter: Reporter, readTasks: set<nat>,
                     outputs: Outputs, exitStatus: int, ghost waves: nat)
    returns (r: Result<bool, RunError>, newOutputs: Outputs, newStatus: int, ghost newWaves: nat)
    requires Runnable(w) && execution.workflow == w && readTasks == ReadTasks(w)
    requires BetweenWaves(w, host, waves, execution.statuses, outputs, exitStatus, reporter.log)
    modifies execution`statuses, reporter`log
    ensures r == Ok(true) ==> BetweenWaves(w, host, newWaves, execution.statuses, newOutputs, newStatus, reporter.log)
    ensures r == Ok(true) ==> PendingSet(execution.statuses) < PendingSet(old(execution.statuses))
    ensures r == Ok(false) ==> IsDone(w, host, newWaves, newStatus, reporter.log)
    ensures r.Err? ==> Explains(w, host, newWaves, r.error, reporter.Refused(), reporter.log)
  {
    newOutputs, newStatus, newWaves := outputs, exitStatus, waves + 1;
    ghost var before, log := execution.statuses, reporter.log;
    var started, ready := StartReadyTasks(execution, reporter);
    if started.Err? {
      return Err(started.error), newOutputs, newStatus, newWaves;
    }
    ReadyIsNextWave(w, host, waves, before);
    if started.value == [] {
      NothingReadyMeansDone(w, host, waves, before, ready);
      assert execution.statuses == before;
      var reported := ReportBlocked(w, host, execution, reporter, waves, log);
      if reported.Err? {
        return Err(reported.error), newOutputs, newStatus, newWaves;
      }
      return Ok(false), newOutputs, newStatus, waves;
    }
    var ran: Result<(), RunError>;
    ran, newOutputs, newStatus :=
      RunWave(w, host, execution, reporter, started.value, readTasks, outputs, exitStatus, waves, ready, before, log);
    if ran.Err? {
      return Err(ran.error), newOutputs, newStatus, newWaves;
    }
    WaveShrinksPending(w, host, waves, before, execution.statuses, ready);
    r := Ok(true);
  }

  /** Runs wave after wave until no task is pending or the next wave has nothing to start. */
  method RunWaves(w: Workflow, host: Host, execution: WorkflowExecution, reporter: Reporter)
    returns (r: Result<int, RunError>, ghost waves: nat)
    requires Runnable(w) && execution.workflow == w
    requires BetweenWaves(w, host, 0, execution.statuses, map[], 0, reporter.log)
    modifies execution`statuses, reporter`log
    ensures r.Ok? ==> IsDone(w, host, waves, r.value, reporter.log)
    ensures r.Err? ==> Explains(w, host, waves, r.error, reporter.Refused(), reporter.log)
  {
    var readTasks := ReadTasks(w);
    var outputs: Outputs := map[];
    var exitStatus := 0;
    waves := 0;
    var pending := execution.HasPending();
    while pending
      invariant BetweenWaves(w, host, waves, execution.statuses, outputs, exitStatus, reporter.log)
      invariant pending <==> Pending in execution.statuses
      decreases PendingSet(execution.statuses)
    {
      var ran: Result<bool, RunError>;
      ran, outputs, exitStatus, waves := RunNextWave(w, host, execution, reporter, readTasks, outputs, exitStatus, waves);
      if ran.Err? {
        return Err(ran.error), waves;
      }
      if !ran.value {
        return Ok(exitStatus), waves;
      }
      pending := execution.HasPending();
    }
    AllRanMeansDone(w, host, waves, execution.statuses, outputs, exitStatus, reporter.log);
    r := Ok(exitStatus);
  }

  /**
   * Runs the workflow in waves: start what is ready, fill its requests, run
   * them side by side, record what they end with. The result is decided by the
   * meaning of the tasks and by nothing else; `waves` counts the waves, a failed one too.
   */
  method RunWorkflow(w: Workflow, host: Host, reporter: Reporter)
    returns (r: Result<int, RunError>, ghost waves: nat)
    requires Valid(w) && reporter.log == []
    modifies reporter`log
    ensures Runnable(w)
    ensures r.Ok? ==> ExitAfter(w, host, waves, r.value) && NoErrorAfter(w, host, waves)
    ensures r.Ok? ==> AnswersFirstFailure(w, host, waves, r.value)
    ensures r.Ok? ==> WavesNeeded(w, host, waves) && FullyReported(w, host, reporter.log)
    ensures r.Err? ==> match r.error
                       case ProcessFailed(kind) => FirstErrorAfter(w, host, waves, kind) && ReportedAfter(w, host, waves, reporter.log)
                       case CallbackFailed => reporter.Refused()
                       case _ => false
  {
    ValidIsRunnable(w);
    var execution := new WorkflowExecution(w);
    BeforeAnyWave(w, host, execution.statuses);
    r, waves := RunWaves(w, host, execution, reporter);
    if r.Ok? {
      ExitAnswers(w, host, waves, r.value);
    }
  }

  lemma BeforeAnyWave(w: Workflow, host: Host, statuses: Statuses)
    requires Runnable(w) && statuses == seq(|w.tasks|, _ => Pending)
    ensures BetweenWaves(w, host, 0, statuses, map[], 0, [])
  {
  }

  lemma ReadyIsNextWave(w: Workflow, host: Host, k: nat, statuses: Statuses)
    requires Runnable(w) && StatusesAfter(w, host, k, statuses)
    ensures IsNextWave(w, host, k, ReadyTasks(GraphOf(w), statuses, 0))
  {
    var ready := ReadyTasks(GraphOf(w), statuses, 0);
    forall v: nat
      ensures v in ready <==> v < |w.tasks| && Meaning(w, host, v).Some? && Depth(GraphOf(w), v) == k + 1
    {
      ReadyIsNextDepth(w, host, k, statuses, v);
    }
  }

  /** Below a task that has not run there is one whose turn is the next wave. */
  lemma {:induction false} SomeTaskIsNext(w: Workflow, host: Host, k: nat, v: nat) returns (next: nat)
    requires Runnable(w) && v < |w.tasks| && Meaning(w, host, v).Some? && Depth(GraphOf(w), v) > k
    ensures next < |w.tasks| && Meaning(w, host, next).Some? && Depth(GraphOf(w), next) == k + 1
    decreases Depth(GraphOf(w), v)
  {
    var g := GraphOf(w);
    if Depth(g, v) == k + 1 {
      next := v;
    } else {
      var i := DeepestDependency(g, v);
      var d := g[v][i];
      assert d in w.tasks[v].dependencies;
      BlockedMeansNone(w, host, v);
      next := SomeTaskIsNext(w, host, k, d);
    }
  }

  lemma SomeTaskIsReady(w: Workflow, host: Host, k: nat, v: nat, ready: seq<nat>)
    requires Runnable(w) && v < |w.tasks| && Meaning(w, host, v).Some? && Depth(GraphOf(w), v) > k
    requires IsNextWave(w, host, k, ready)
    ensures ready != []
  {
    var next := SomeTaskIsNext(w, host, k, v);
    assert next in ready;
  }

  lemma NothingReadyMeansDone(w: Workflow, host: Host, k: nat, statuses: Statuses, ready: seq<nat>)
    requires Runnable(w) && IsNextWave(w, host, k, ready) && ready == []
    ensures forall v: nat :: v < |w.tasks| && Meaning(w, host, v).Some? ==> Depth(GraphOf(w), v) <= k
  {
    forall v: nat | v < |w.tasks| && Meaning(w, host, v).Some? ensures Depth(GraphOf(w), v) <= k {
      if Depth(GraphOf(w), v) > k {
        SomeTaskIsReady(w, host, k, v, ready);
      }
    }
  }

  ghost function BlockedNews(blocked: seq<nat>): nat -> seq<RunEvent> {
    (v: nat) => if v in blocked then [RunEvent.Blocked(v)] else []
  }

  lemma BlockedTasks(w: Workflow, host: Host, k: nat, statuses: Statuses)
    requires Runnable(w) && StatusesAfter(w, host, k, statuses)
    requires forall v: nat :: v < |w.tasks| && Meaning(w, host, v).Some? ==> Depth(GraphOf(w), v) <= k
    ensures forall v: nat :: v in WithStatus(statuses, Pending, 0) <==> v < |w.tasks| && Meaning(w, host, v).None?
  {
    forall v: nat | v < |w.tasks| ensures statuses[v] == Pending <==> Meaning(w, host, v).None? {
      assert statuses[v] == StatusAfter(w, host, k, v);
    }
  }

  lemma BlockedNewsGrows(blocked: seq<nat>, index: nat, v: nat)
    requires index !in blocked
    ensures BlockedNews(blocked + [index])(v) == if v == index then BlockedNews(blocked)(v) + [RunEvent.Blocked(index)] else BlockedNews(blocked)(v)
  {
    assert v in blocked + [index] <==> v in blocked || v == index;
  }

  lemma BlockIsReported(before: seq<RunEvent>, log: seq<RunEvent>, blocked: seq<nat>, index: nat)
    requires LogGains(before, log, BlockedNews(blocked)) && index !in blocked
    ensures LogGains(before, log + [RunEvent.Blocked(index)], BlockedNews(blocked + [index]))
  {
    forall v: nat ensures Project(log + [RunEvent.Blocked(index)], v) == Project(before, v) + BlockedNews(blocked + [index])(v) {
      BlockedNewsGrows(blocked, index, v);
      OneMoreNews(before, log, RunEvent.Blocked(index), v, BlockedNews(blocked)(v));
    }
  }

  lemma AllReported(w: Workflow, host: Host, k: nat, log: seq<RunEvent>, unreported: seq<RunEvent>, last: seq<RunEvent>, blocked: seq<nat>)
    requires Runnable(w) && ReportedAfter(w, host, k, log)
    requires LogGains(log, unreported, StartNews([])) && LogGains(unreported, last, BlockedNews(blocked))
    requires forall v: nat :: v < |w.tasks| && Meaning(w, host, v).Some? ==> Depth(GraphOf(w), v) <= k
    requires forall v: nat :: v in blocked <==> v < |w.tasks| && Meaning(w, host, v).None?
    ensures FullyReported(w, host, last)
  {
    forall v: nat | v < |w.tasks|
      ensures match Meaning(w, host, v)
              case Some(outcome) => CompleteStory(v, outcome, Project(last, v))
              case None => Project(last, v) == [RunEvent.Blocked(v)]
    {
      assert Project(unreported, v) == Project(log, v) + StartNews([])(v);
      assert Project(last, v) == Project(unreported, v) + BlockedNews(blocked)(v);
      assert Project(log, v) + [] == Project(log, v);
      assert Meaning(w, host, v).Some? <==> Ran(w, host, k, v);
    }
  }

  ghost predicate StartedWave(w: Workflow, ready: seq<nat>, started: seq<(nat, TaskRequest)>) {
    |started| == |ready| && forall i :: 0 <= i < |ready| ==> IsRequestOf(w, ready[i], started[i])
  }

  lemma WaveJobsFill(w: Workflow, host: Host, k: nat, statuses: Statuses, outputs: Outputs, ready: seq<nat>, started: seq<(nat, TaskRequest)>)
    requires Runnable(w) && StatusesAfter(w, host, k, statuses) && OutputsAfter(w, host, k, outputs)
    requires ready == ReadyTasks(GraphOf(w), statuses, 0) && StartedWave(w, ready, started)
    ensures forall i :: 0 <= i < |started| ==> Fill(w, host, outputs, started[i].1).Ok?
  {
    forall i | 0 <= i < |started| ensures Fill(w, host, outputs, started[i].1).Ok? {
      assert ready[i] in ready;
      ReadyFills(w, host, k, statuses, outputs, ready[i]);
      assert IsRequestOf(w, ready[i], started[i]);
    }
  }

  /** The jobs of a wave end with the meanings of its tasks. */
  ghost predicate JobsMean(w: Workflow, host: Host, ready: seq<nat>, jobs: seq<Job>)
    requires Runnable(w)
  {
    |jobs| == |ready| &&
    forall i :: 0 <= i < |ready| ==>
      ready[i] < |w.tasks| && jobs[i].0 == ready[i] && Meaning(w, host, ready[i]) == Some(OutcomeOf(jobs[i].1))
  }

  lemma WaveJobs(w: Workflow, host: Host, k: nat, statuses: Statuses, outputs: Outputs, ready: seq<nat>, started: seq<(nat, TaskRequest)>, jobs: seq<Job>)
    requires Runnable(w) && StatusesAfter(w, host, k, statuses) && OutputsAfter(w, host, k, outputs)
    requires ready == ReadyTasks(GraphOf(w), statuses, 0) && StartedWave(w, ready, started)
    requires |jobs| == |started| && forall i :: 0 <= i < |started| ==> IsJobOf(w, host, outputs, started[i], jobs[i])
    ensures JobsMean(w, host, ready, jobs) && DistinctJobs(jobs)
  {
    forall i | 0 <= i < |ready|
      ensures ready[i] < |w.tasks| && jobs[i].0 == ready[i] && Meaning(w, host, ready[i]) == Some(OutcomeOf(jobs[i].1))
    {
      assert ready[i] in ready;
      ReadyFills(w, host, k, statuses, outputs, ready[i]);
      assert IsRequestOf(w, ready[i], started[i]) && IsJobOf(w, host, outputs, started[i], jobs[i]);
    }
  }

  lemma WaveReported(w: Workflow, host: Host, k: nat, ready: seq<nat>, log: seq<RunEvent>, started: seq<RunEvent>, last: seq<RunEvent>,
                     jobs: seq<Job>, stories: seq<seq<RunEvent>>)
    requires Runnable(w) && IsNextWave(w, host, k, ready) && JobsMean(w, host, ready, jobs)
    requires ReportedAfter(w, host, k, log) && LogGains(log, started, StartNews(ready)) && LogTells(started, last, jobs, stories)
    requires forall i :: 0 <= i < |jobs| ==> Told(jobs[i].0, OutcomeOf(jobs[i].1), stories[i])
    ensures ReportedAfter(w, host, k + 1, last)
  {
    forall v: nat | v < |w.tasks|
      ensures if Ran(w, host, k + 1, v) then CompleteStory(v, Meaning(w, host, v).value, Project(last, v)) else Project(last, v) == []
    {
      assert Project(started, v) == Project(log, v) + StartNews(ready)(v);
      if v in ready {
        var i :| 0 <= i < |ready| && ready[i] == v;
        assert jobs[i].0 == v;
        assert Project(last, v) == ([] + [Started(v)]) + stories[i];
        assert Project(last, v)[1..] == stories[i];
      } else {
        forall i | 0 <= i < |jobs| ensures jobs[i].0 != v { assert ready[i] in ready; }
        assert Project(log, v) + [] == Project(log, v);
        assert Ran(w, host, k + 1, v) <==> Ran(w, host, k, v);
      }
    }
  }

  lemma WaveIsRecorded(w: Workflow, host: Host, k: nat, ready: seq<nat>, before: Statuses, ledger: Ledger, jobs: seq<Job>, outcomes: seq<TaskOutcome>)
    requires Runnable(w) && IsNextWave(w, host, k, ready) && JobsMean(w, host, ready, jobs)
    requires After(w, host, k, before, ledger.outputs, ledger.exitStatus)
    requires Launched(ready, before, ledger.statuses) && ledger.error.None?
    requires DistinctTasks(outcomes)
    requires forall i :: 0 <= i < |jobs| ==> (jobs[i].0, OutcomeOf(jobs[i].1)) in outcomes
    requires forall x :: x in outcomes ==> exists i :: 0 <= i < |jobs| && x == (jobs[i].0, OutcomeOf(jobs[i].1))
    ensures var result := RecordAll(ledger, ReadTasks(w), SortByTask(outcomes));
            && result.Ok?
            && (result.value.error.Some? ==> FirstErrorAfter(w, host, k + 1, result.value.error.value))
            && (result.value.error.None? ==>
                  After(w, host, k + 1, result.value.statuses, result.value.outputs, result.value.exitStatus))
  {
    WaveTasks(w, host, k, ready);
    var batch := WaveOutcomes(w, host, ready);
    SortKeeps(outcomes);
    SortedIsBatch(w, host, ready, jobs, outcomes);
    forall i | 0 <= i < |batch| ensures IsRunning(ledger.statuses, batch[i].0) {
      assert ready[i] in ready;
    }
    RecordAllRecords(ledger, ReadTasks(w), batch);
    var after := RecordAll(ledger, ReadTasks(w), batch).value;
    WaveError(w, host, k, ready);
    if after.error.None? {
      WaveStatuses(w, host, k, ready, ledger.(statuses := before), ledger.statuses, after);
      WaveOutputs(w, host, k, ready, ledger.outputs, after.outputs);
      WaveExit(w, host, k, ready, ledger.exitStatus);
    }
  }

  lemma SortedIsBatch(w: Workflow, host: Host, ready: seq<nat>, jobs: seq<Job>, outcomes: seq<TaskOutcome>)
    requires Runnable(w) && JobsMean(w, host, ready, jobs)
    requires Increasing(WaveOutcomes(w, host, ready)) && Increasing(SortByTask(outcomes))
    requires forall x :: x in SortByTask(outcomes) <==> x in outcomes
    requires forall i :: 0 <= i < |jobs| ==> (jobs[i].0, OutcomeOf(jobs[i].1)) in outcomes
    requires forall x :: x in outcomes ==> exists i :: 0 <= i < |jobs| && x == (jobs[i].0, OutcomeOf(jobs[i].1))
    ensures SortByTask(outcomes) == WaveOutcomes(w, host, ready)
  {
    var batch, sorted := WaveOutcomes(w, host, ready), SortByTask(outcomes);
    forall i | 0 <= i < |batch| ensures batch[i] in sorted {
      assert batch[i] == (jobs[i].0, OutcomeOf(jobs[i].1));
    }
    forall i | 0 <= i < |sorted| ensures sorted[i] in batch {
      assert sorted[i] in outcomes;
      var j :| 0 <= j < |jobs| && sorted[i] == (jobs[j].0, OutcomeOf(jobs[j].1));
      assert batch[j] == sorted[i];
    }
    IncreasingIsUnique(sorted, batch);
  }

  lemma WaveShrinksPending(w: Workflow, host: Host, k: nat, before: Statuses, after: Statuses, ready: seq<nat>)
    requires Runnable(w) && IsNextWave(w, host, k, ready) && ready != []
    requires StatusesAfter(w, host, k, before) && StatusesAfter(w, host, k + 1, after)
    ensures PendingSet(after) < PendingSet(before) && LastWaveRan(w, host, k + 1)
  {
    forall v: nat | v in PendingSet(after) ensures v in PendingSet(before) {
      assert after[v] == StatusAfter(w, host, k + 1, v) && before[v] == StatusAfter(w, host, k, v);
    }
    var v := ready[0];
    assert v in ready;
    assert after[v] == StatusAfter(w, host, k + 1, v) && before[v] == StatusAfter(w, host, k, v);
    assert v in PendingSet(before) && v !in PendingSet(after);
  }

  lemma AllRanMeansDone(w: Workflow, host: Host, k: nat, statuses: Statuses, outputs: Outputs, exitStatus: int, log: seq<RunEvent>)
    requires Runnable(w) && BetweenWaves(w, host, k, statuses, outputs, exitStatus, log)
    requires Pending !in statuses
    ensures IsDone(w, host, k, exitStatus, log)
  {
    forall v: nat | v < |w.tasks| ensures Ran(w, host, k, v) {
      assert statuses[v] == StatusAfter(w, host, k, v) && statuses[v] in statuses;
    }
  }

  // ----- what the result says -----

  /** A task that never runs stands above one that ran and did not exit zero. */
  lemma {:induction false} BlockedAboveFailure(w: Workflow, host: Host, v: nat) returns (failed: nat)
    requires Runnable(w) && v < |w.tasks| && !Succeeds(Meaning(w, host, v))
    ensures failed < |w.tasks| && Meaning(w, host, failed).Some? && !Succeeds(Meaning(w, host, failed))
    decreases RankOf(GraphOf(w))[v]
  {
    if Meaning(w, host, v).Some? {
      failed := v;
    } else {
      BlockedMeansNone(w, host, v);
      var d :| d in w.tasks[v].dependencies && !Succeeds(Meaning(w, host, d));
      assert Edge(GraphOf(w), v, d);
      failed := BlockedAboveFailure(w, host, d);
    }
  }

  /** A run without execution errors ends with status zero exactly when every task exits zero. */
  lemma ZeroExactlyWhenAllSucceed(w: Workflow, host: Host, waves: nat, exitStatus: int)
    requires Runnable(w) && WavesNeeded(w, host, waves) && ExitAfter(w, host, waves, exitStatus) && NoErrorAfter(w, host, waves)
    ensures exitStatus == 0 <==> forall v: nat :: v < |w.tasks| ==> Succeeds(Meaning(w, host, v))
  {
    if exitStatus == 0 {
      forall v: nat | v < |w.tasks| ensures Succeeds(Meaning(w, host, v)) {
        ZeroMeansSuccess(w, host, waves, v);
      }
    } else {
      var v: nat :| ExitsBadly(w, host, waves, v);
      assert !Succeeds(Meaning(w, host, v));
    }
  }

  lemma ZeroMeansSuccess(w: Workflow, host: Host, waves: nat, v: nat)
    requires Runnable(w) && WavesNeeded(w, host, waves) && ExitAfter(w, host, waves, 0) && NoErrorAfter(w, host, waves)
    requires v < |w.tasks|
    ensures Succeeds(Meaning(w, host, v))
  {
    if !Succeeds(Meaning(w, host, v)) {
      var failed := BlockedAboveFailure(w, host, v);
      RanAndFailed(w, host, waves, failed);
    }
  }

  lemma RanAndFailed(w: Workflow, host: Host, waves: nat, v: nat)
    requires Runnable(w) && WavesNeeded(w, host, waves)
    requires v < |w.tasks| && Meaning(w, host, v).Some? && !Succeeds(Meaning(w, host, v))
    ensures !ExitAfter(w, host, waves, 0) || !NoErrorAfter(w, host, waves)
  {
    assert Ran(w, host, waves, v);
    assert ExitsBadly(w, host, waves, v) || CannotRun(w, host, waves, v);
  }

  /** A task that a signal ends blocks what depends on it and spoils the answer, which is 1 when it fails first. */
  lemma KilledTaskSpoilsRun(w: Workflow, host: Host, waves: nat, v: nat, answer: int)
    requires Runnable(w) && WavesNeeded(w, host, waves) && AnswersFirstFailure(w, host, waves, answer)
    requires v < |w.tasks| && Meaning(w, host, v).Some? && IsKilled(ExecutionOf(w, host, v))
    ensures forall u: nat :: u < |w.tasks| && v in w.tasks[u].dependencies ==> Meaning(w, host, u).None?
    ensures answer != 0 && (IsFirstFailure(w, host, waves, v) ==> answer == 1)
  {
    forall u: nat | u < |w.tasks| && v in w.tasks[u].dependencies ensures Meaning(w, host, u).None? {
      RunsExactlyBehindZeros(w, host, u);
    }
    KilledAnswer(w, host, waves, v, answer);
  }

  lemma KilledAnswer(w: Workflow, host: Host, waves: nat, v: nat, answer: int)
    requires Runnable(w) && AnswersFirstFailure(w, host, waves, answer)
    requires Ran(w, host, waves, v) && IsKilled(ExecutionOf(w, host, v))
    ensures answer != 0 && (IsFirstFailure(w, host, waves, v) ==> answer == 1)
  {
    assert Fails(w, host, waves, v);
    if answer != 0 && IsFirstFailure(w, host, waves, v) {
      var first: nat :| IsFirstFailure(w, host, waves, first)
                        && (ExitsWith(ExecutionOf(w, host, first), answer) || (IsKilled(ExecutionOf(w, host, first)) && answer == 1));
      OneFirstFailure(w, host, waves, v, first);
    }
  }

  lemma OneFirstFailure(w: Workflow, host: Host, waves: nat, one: nat, other: nat)
    requires Runnable(w) && IsFirstFailure(w, host, waves, one) && IsFirstFailure(w, host, waves, other)
    ensures one == other
  {
  }

  /** The number of waves is the length of a dependency path, so at most that of the longest one. */
  lemma WavesFollowLongestPath(w: Workflow, host: Host, waves: nat)
    requires Runnable(w) && WavesNeeded(w, host, waves)
    ensures waves > 0 ==> exists path :: IsPath(GraphOf(w), path) && |path| == waves
  {
    if waves > 0 {
      var v: nat :| v < |w.tasks| && Meaning(w, host, v).Some? && Depth(GraphOf(w), v) == waves;
      var path := DeepestPath(GraphOf(w), v);
    }
  }
}
