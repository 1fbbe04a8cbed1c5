/** What holds after a number of waves: the state of the runner told by depth. */
module Waves {
  import opened Outcomes
  import opened Graphs
  import opened Workflows
  import opened Executions
  import opened Streams
  import opened Meanings
  import opened Recording

  function ReadTasks(w: Workflow): set<nat> {
    set v, d | 0 <= v < |w.tasks| && d in w.tasks[v].sources :: d
  }

  /** The task runs in one of the first `k` waves. */
  ghost predicate Ran(w: Workflow, host: Host, k: nat, v: nat)
    requires Runnable(w)
  {
    v < |w.tasks| && Meaning(w, host, v).Some? && Depth(GraphOf(w), v) <= k
  }

  ghost function StatusAfter(w: Workflow, host: Host, k: nat, v: nat): TaskStatus
    requires Runnable(w) && v < |w.tasks|
  {
    if !Ran(w, host, k, v) then Pending
    else if Succeeds(Meaning(w, host, v)) then Succeeded else TaskStatus.Failed
  }

  ghost predicate StatusesAfter(w: Workflow, host: Host, k: nat, statuses: Statuses)
    requires Runnable(w)
  {
    |statuses| == |w.tasks| && forall v: nat :: v < |w.tasks| ==> statuses[v] == StatusAfter(w, host, k, v)
  }

  /** Exactly the outputs that some task reads are kept. */
  ghost predicate OutputsAfter(w: Workflow, host: Host, k: nat, outputs: Outputs)
    requires Runnable(w)
  {
    && (forall v: nat :: v in outputs <==> Ran(w, host, k, v) && Meaning(w, host, v).value.Ok? && v in ReadTasks(w))
    && (forall v: nat :: v in outputs ==> Meaning(w, host, v) == Some(Ok(outputs[v])))
  }

  /** Earlier wave first, then declaration order. */
  ghost predicate NoLater(g: Graph, u: nat, v: nat)
    requires Acyclic(g) && InRange(g) && u < |g| && v < |g|
  {
    Depth(g, u) < Depth(g, v) || (Depth(g, u) == Depth(g, v) && u <= v)
  }

  /** The task ran to its end and did not exit zero. */
  ghost predicate ExitsBadly(w: Workflow, host: Host, k: nat, v: nat)
    requires Runnable(w)
  {
    Ran(w, host, k, v) && Meaning(w, host, v).value.Ok? && TaskStatusOf(Meaning(w, host, v).value) != 0
  }

  /** The task could not be executed. */
  ghost predicate CannotRun(w: Workflow, host: Host, k: nat, v: nat)
    requires Runnable(w)
  {
    Ran(w, host, k, v) && Meaning(w, host, v).value.Err?
  }

  /** The status of the first bad exit, or zero when there is none. */
  ghost predicate ExitAfter(w: Workflow, host: Host, k: nat, exitStatus: int)
    requires Runnable(w)
  {
    if exitStatus == 0 then forall v: nat :: !ExitsBadly(w, host, k, v)
    else exists v: nat :: ExitsBadly(w, host, k, v) && TaskStatusOf(Meaning(w, host, v).value) == exitStatus
                          && forall u: nat :: ExitsBadly(w, host, k, u) ==> NoLater(GraphOf(w), v, u)
  }

  /** The error is that of the first task that could not be executed. */
  ghost predicate FirstErrorAfter(w: Workflow, host: Host, k: nat, kind: ErrorKind)
    requires Runnable(w)
  {
    exists v: nat :: CannotRun(w, host, k, v) && Meaning(w, host, v).value == Err(kind)
                     && forall u: nat :: CannotRun(w, host, k, u) ==> NoLater(GraphOf(w), v, u)
  }

  ghost predicate NoErrorAfter(w: Workflow, host: Host, k: nat)
    requires Runnable(w)
  {
    forall v: nat :: !CannotRun(w, host, k, v)
  }

  // ----- the answer of a run -----

  /** The task ran, and its process did not exit zero. */
  ghost predicate Fails(w: Workflow, host: Host, k: nat, v: nat)
    requires Runnable(w)
  {
    Ran(w, host, k, v) && !ExitsWith(ExecutionOf(w, host, v), 0)
  }

  /** No task that fails comes before this one, in an earlier wave or declared earlier in its own. */
  ghost predicate IsFirstFailure(w: Workflow, host: Host, k: nat, v: nat)
    requires Runnable(w)
  {
    Fails(w, host, k, v) && forall u: nat :: Fails(w, host, k, u) ==> NoLater(GraphOf(w), v, u)
  }

  /**
   * Zero when every process that ran exited zero. Otherwise the code of the first process that did not, or 1 when a
   * signal ended it.
   */
  ghost predicate AnswersFirstFailure(w: Workflow, host: Host, k: nat, answer: int)
    requires Runnable(w)
  {
    if answer == 0 then forall v: nat :: !Fails(w, host, k, v)
    else exists v: nat :: IsFirstFailure(w, host, k, v)
                          && (ExitsWith(ExecutionOf(w, host, v), answer) || (IsKilled(ExecutionOf(w, host, v)) && answer == 1))
  }

  lemma BadExitIsFailure(w: Workflow, host: Host, k: nat, v: nat)
    requires Runnable(w) && NoErrorAfter(w, host, k)
    ensures ExitsBadly(w, host, k, v) <==> Fails(w, host, k, v)
    ensures Fails(w, host, k, v) ==>
              var execution, status := ExecutionOf(w, host, v), TaskStatusOf(Meaning(w, host, v).value);
              ExitsWith(execution, status) || (IsKilled(execution) && status == 1)
  {
    if Ran(w, host, k, v) {
      assert !CannotRun(w, host, k, v);
      SucceedsExactly(w, host, v);
      OutcomeIsExact(ExecutionOf(w, host, v));
    }
  }

  /** Without an execution error the exit status is the answer its processes call for. */
  lemma ExitAnswers(w: Workflow, host: Host, k: nat, exitStatus: int)
    requires Runnable(w) && NoErrorAfter(w, host, k) && ExitAfter(w, host, k, exitStatus)
    ensures AnswersFirstFailure(w, host, k, exitStatus)
  {
    forall v: nat ensures ExitsBadly(w, host, k, v) <==> Fails(w, host, k, v) {
      BadExitIsFailure(w, host, k, v);
    }
    if exitStatus != 0 {
      var v: nat :| ExitsBadly(w, host, k, v) && TaskStatusOf(Meaning(w, host, v).value) == exitStatus
                    && forall u: nat :: ExitsBadly(w, host, k, u) ==> NoLater(GraphOf(w), v, u);
      BadExitIsFailure(w, host, k, v);
      assert IsFirstFailure(w, host, k, v);
    }
  }

  lemma DepthAboveDependencies(g: Graph, v: nat, k: nat)
    requires Acyclic(g) && InRange(g) && v < |g|
    requires forall d :: d in g[v] ==> Depth(g, d) <= k
    ensures Depth(g, v) <= k + 1
  {
    if Depth(g, v) > 1 {
      var i := DeepestDependency(g, v);
      assert g[v][i] in g[v];
    }
  }

  lemma ReadyIsDeepEnough(w: Workflow, host: Host, k: nat, statuses: Statuses, v: nat)
    requires Runnable(w) && StatusesAfter(w, host, k, statuses) && v < |w.tasks| && IsReady(GraphOf(w), statuses, v)
    ensures Meaning(w, host, v).Some? && Depth(GraphOf(w), v) == k + 1
  {
    var g := GraphOf(w);
    BlockedMeansNone(w, host, v);
    forall d | d in w.tasks[v].dependencies ensures Succeeds(Meaning(w, host, d)) && Depth(g, d) <= k {
      assert d in g[v] && statuses[d] == StatusAfter(w, host, k, d);
    }
    DepthAboveDependencies(g, v, k);
    assert statuses[v] == StatusAfter(w, host, k, v);
  }

  lemma DeepEnoughIsReady(w: Workflow, host: Host, k: nat, statuses: Statuses, v: nat)
    requires Runnable(w) && StatusesAfter(w, host, k, statuses) && v < |w.tasks|
    requires Meaning(w, host, v).Some? && Depth(GraphOf(w), v) == k + 1
    ensures IsReady(GraphOf(w), statuses, v)
  {
    var g := GraphOf(w);
    BlockedMeansNone(w, host, v);
    DependenciesAreShallower(g, v);
    assert statuses[v] == StatusAfter(w, host, k, v);
    forall d | d in g[v] ensures d < |statuses| && statuses[d] == Succeeded {
      assert Edge(g, v, d) by {
        var i :| 0 <= i < |g[v]| && g[v][i] == d;
      }
      assert d in w.tasks[v].dependencies && Succeeds(Meaning(w, host, d));
      assert statuses[d] == StatusAfter(w, host, k, d);
    }
  }

  /** After `k` waves the ready tasks are those of depth `k + 1` that nothing blocks. */
  lemma ReadyIsNextDepth(w: Workflow, host: Host, k: nat, statuses: Statuses, v: nat)
    requires Runnable(w) && StatusesAfter(w, host, k, statuses)
    ensures IsReady(GraphOf(w), statuses, v) <==>
            v < |w.tasks| && Meaning(w, host, v).Some? && Depth(GraphOf(w), v) == k + 1
  {
    if v < |w.tasks| && IsReady(GraphOf(w), statuses, v) {
      ReadyIsDeepEnough(w, host, k, statuses, v);
    } else if v < |w.tasks| && Meaning(w, host, v).Some? && Depth(GraphOf(w), v) == k + 1 {
      DeepEnoughIsReady(w, host, k, statuses, v);
    }
  }

  /** A ready task's request fills, and executing it gives the task's meaning. */
  lemma ReadyFills(w: Workflow, host: Host, k: nat, statuses: Statuses, outputs: Outputs, v: nat)
    requires Runnable(w) && StatusesAfter(w, host, k, statuses) && OutputsAfter(w, host, k, outputs)
    requires IsReady(GraphOf(w), statuses, v)
    ensures Fill(w, host, outputs, w.tasks[v].request).Ok?
    ensures Meaning(w, host, v) == Some(OutcomeOf(host.execute(v, Fill(w, host, outputs, w.tasks[v].request).value)))
  {
    ReadyIsNextDepth(w, host, k, statuses, v);
    BlockedMeansNone(w, host, v);
    forall d | d in w.tasks[v].dependencies && d in w.tasks[v].sources ensures d in outputs {
      assert d in GraphOf(w)[v] && Depth(GraphOf(w), d) <= k;
      assert Succeeds(Meaning(w, host, d));
      assert Ran(w, host, k, d) && d in ReadTasks(w);
    }
    MeaningOf(w, host, v, outputs);
  }

  // ----- recording one wave -----

  /** The outcomes of a wave, in declaration order. */
  ghost function WaveOutcomes(w: Workflow, host: Host, ready: seq<nat>): (batch: seq<TaskOutcome>)
    requires Runnable(w)
    requires forall i :: 0 <= i < |ready| ==> ready[i] < |w.tasks| && Meaning(w, host, ready[i]).Some?
    ensures |batch| == |ready|
  {
    seq(|ready|, i requires 0 <= i < |ready| => (ready[i], Meaning(w, host, ready[i]).value))
  }

  function FirstExit(outcomes: seq<TaskOutcome>): int {
    if outcomes == [] then 0
    else
      var before, last := FirstExit(outcomes[..|outcomes| - 1]), outcomes[|outcomes| - 1].1;
      if before != 0 then before else if last.Ok? then TaskStatusOf(last) else 0
  }

  function FirstError(outcomes: seq<TaskOutcome>): Option<ErrorKind> {
    if outcomes == [] then None
    else
      var before, last := FirstError(outcomes[..|outcomes| - 1]), outcomes[|outcomes| - 1].1;
      if before.Some? then before else if last.Err? then Some(last.error) else None
  }

  lemma {:induction false} FirstExitIsFirst(outcomes: seq<TaskOutcome>)
    ensures FirstExit(outcomes) == 0 ==>
              forall i :: 0 <= i < |outcomes| && outcomes[i].1.Ok? ==> TaskStatusOf(outcomes[i].1) == 0
    ensures FirstExit(outcomes) != 0 ==>
              exists i :: 0 <= i < |outcomes| && outcomes[i].1.Ok? && TaskStatusOf(outcomes[i].1) == FirstExit(outcomes)
                          && forall j :: 0 <= j < i && outcomes[j].1.Ok? ==> TaskStatusOf(outcomes[j].1) == 0
  {
    if outcomes != [] {
      var shorter := outcomes[..|outcomes| - 1];
      FirstExitIsFirst(shorter);
      assert forall i :: 0 <= i < |shorter| ==> shorter[i] == outcomes[i];
      if FirstExit(shorter) != 0 {
        var i :| 0 <= i < |shorter| && shorter[i].1.Ok? && TaskStatusOf(shorter[i].1) == FirstExit(shorter)
                 && forall j :: 0 <= j < i && shorter[j].1.Ok? ==> TaskStatusOf(shorter[j].1) == 0;
        assert outcomes[i] == shorter[i];
      }
    }
  }

  lemma {:induction false} FirstErrorIsFirst(outcomes: seq<TaskOutcome>)
    ensures FirstError(outcomes).None? ==> forall i :: 0 <= i < |outcomes| ==> outcomes[i].1.Ok?
    ensures FirstError(outcomes).Some? ==>
              exists i :: 0 <= i < |outcomes| && outcomes[i].1 == Err(FirstError(outcomes).value)
                          && forall j :: 0 <= j < i ==> outcomes[j].1.Ok?
  {
    if outcomes != [] {
      var shorter := outcomes[..|outcomes| - 1];
      FirstErrorIsFirst(shorter);
      assert forall i :: 0 <= i < |shorter| ==> shorter[i] == outcomes[i];
      if FirstError(shorter).Some? {
        var i :| 0 <= i < |shorter| && shorter[i].1 == Err(FirstError(shorter).value)
                 && forall j :: 0 <= j < i ==> shorter[j].1.Ok?;
        assert outcomes[i] == shorter[i];
      }
    }
  }

  predicate HasTask(outcomes: seq<TaskOutcome>, v: nat) {
    exists i :: 0 <= i < |outcomes| && outcomes[i].0 == v
  }

  function EndStatus(outcome: Outcome): TaskStatus {
    if TaskStatusOf(outcome) == 0 then Succeeded else TaskStatus.Failed
  }

  /** What recording a batch leaves in each place of the ledger. */
  ghost predicate Recorded(before: Ledger, readTasks: set<nat>, outcomes: seq<TaskOutcome>, after: Ledger) {
    && RecordedStatuses(before.statuses, outcomes, after.statuses)
    && RecordedOutputs(before.outputs, readTasks, outcomes, after.outputs)
    && after.exitStatus == (if before.exitStatus != 0 then before.exitStatus else FirstExit(outcomes))
    && after.error == (if before.error.Some? then before.error else FirstError(outcomes))
  }

  ghost predicate RecordedStatuses(before: Statuses, outcomes: seq<TaskOutcome>, after: Statuses) {
    && |after| == |before|
    && (forall v: nat :: v < |before| && !HasTask(outcomes, v) ==> after[v] == before[v])
    && (forall i :: 0 <= i < |outcomes| ==> outcomes[i].0 < |after| && after[outcomes[i].0] == EndStatus(outcomes[i].1))
  }

  ghost predicate RecordedOutputs(before: Outputs, readTasks: set<nat>, outcomes: seq<TaskOutcome>, after: Outputs) {
    && (forall v: nat :: !HasTask(outcomes, v) ==> (v in after <==> v in before) && (v in after ==> after[v] == before[v]))
    && (forall i :: 0 <= i < |outcomes| && IsKept(outcomes[i], readTasks) ==>
          outcomes[i].0 in after && after[outcomes[i].0] == outcomes[i].1.value)
    && (forall i :: 0 <= i < |outcomes| && !IsKept(outcomes[i], readTasks) ==> (outcomes[i].0 in after <==> outcomes[i].0 in before))
  }

  predicate IsKept(outcome: TaskOutcome, readTasks: set<nat>) {
    outcome.1.Ok? && outcome.0 in readTasks
  }

  lemma {:induction false} RecordAllRecords(before: Ledger, readTasks: set<nat>, outcomes: seq<TaskOutcome>)
    requires DistinctTasks(outcomes)
    requires forall i :: 0 <= i < |outcomes| ==> IsRunning(before.statuses, outcomes[i].0)
    ensures RecordAll(before, readTasks, outcomes).Ok?
    ensures Recorded(before, readTasks, outcomes, RecordAll(before, readTasks, outcomes).value)
  {
    if outcomes != [] {
      var shorter, last := outcomes[..|outcomes| - 1], outcomes[|outcomes| - 1];
      RecordAllRecords(before, readTasks, shorter);
      var middle := RecordAll(before, readTasks, shorter).value;
      assert !HasTask(shorter, last.0);
      RecordOneMore(before, middle, readTasks, shorter, last);
      assert shorter + [last] == outcomes;
    }
  }

  lemma TasksOfOneMore(shorter: seq<TaskOutcome>, last: TaskOutcome)
    requires !HasTask(shorter, last.0)
    ensures forall v: nat :: HasTask(shorter + [last], v) <==> HasTask(shorter, v) || v == last.0
    ensures forall i :: 0 <= i < |shorter| ==> shorter[i].0 != last.0
  {
    var outcomes := shorter + [last];
    assert outcomes[|shorter|] == last;
    forall v: nat ensures HasTask(outcomes, v) <==> HasTask(shorter, v) || v == last.0 {
      if HasTask(shorter, v) {
        var i :| 0 <= i < |shorter| && shorter[i].0 == v;
        assert outcomes[i].0 == v;
      }
    }
    forall i | 0 <= i < |shorter| ensures shorter[i].0 != last.0 {
      assert HasTask(shorter, shorter[i].0);
    }
  }

  lemma RecordOneMore(before: Ledger, middle: Ledger, readTasks: set<nat>, shorter: seq<TaskOutcome>, last: TaskOutcome)
    requires Recorded(before, readTasks, shorter, middle) && !HasTask(shorter, last.0)
    requires IsRunning(before.statuses, last.0)
    ensures IsRunning(middle.statuses, last.0)
    ensures Recorded(before, readTasks, shorter + [last], Record(middle, readTasks, last.0, last.1))
  {
    var outcomes := shorter + [last];
    var after := Record(middle, readTasks, last.0, last.1);
    assert outcomes[..|outcomes| - 1] == shorter && outcomes[|shorter|] == last;
    assert after.statuses == middle.statuses[last.0 := EndStatus(last.1)];
    OneMoreStatus(before.statuses, middle.statuses, shorter, last);
    OneMoreOutput(before.outputs, middle.outputs, readTasks, shorter, last);
  }

  lemma OneMoreStatus(before: Statuses, middle: Statuses, shorter: seq<TaskOutcome>, last: TaskOutcome)
    requires RecordedStatuses(before, shorter, middle) && !HasTask(shorter, last.0) && last.0 < |before|
    ensures RecordedStatuses(before, shorter + [last], middle[last.0 := EndStatus(last.1)])
  {
    TasksOfOneMore(shorter, last);
  }

  lemma OneMoreOutput(before: Outputs, middle: Outputs, readTasks: set<nat>, shorter: seq<TaskOutcome>, last: TaskOutcome)
    requires RecordedOutputs(before, readTasks, shorter, middle) && !HasTask(shorter, last.0)
    ensures RecordedOutputs(before, readTasks, shorter + [last], if IsKept(last, readTasks) then middle[last.0 := last.1.value] else middle)
  {
    TasksOfOneMore(shorter, last);
  }

  // ----- from one wave to the next -----

  ghost predicate After(w: Workflow, host: Host, k: nat, statuses: Statuses, outputs: Outputs, exitStatus: int)
    requires Runnable(w)
  {
    && StatusesAfter(w, host, k, statuses) && OutputsAfter(w, host, k, outputs)
    && ExitAfter(w, host, k, exitStatus) && NoErrorAfter(w, host, k)
  }

  /** The ready tasks, marked as running. */
  ghost predicate Launched(ready: seq<nat>, before: Statuses, after: Statuses) {
    && |after| == |before|
    && (forall v: nat :: v < |before| ==> after[v] == if v in ready then Running else before[v])
  }

  ghost predicate IsNextWave(w: Workflow, host: Host, k: nat, ready: seq<nat>)
    requires Runnable(w)
  {
    && (forall i, j :: 0 <= i < j < |ready| ==> ready[i] < ready[j])
    && (forall v: nat :: v in ready <==> v < |w.tasks| && Meaning(w, host, v).Some? && Depth(GraphOf(w), v) == k + 1)
    && (forall i :: 0 <= i < |ready| ==> ready[i] in ready)
  }

  lemma WaveTasks(w: Workflow, host: Host, k: nat, ready: seq<nat>)
    requires Runnable(w) && IsNextWave(w, host, k, ready)
    ensures var batch := WaveOutcomes(w, host, ready);
            && Increasing(batch) && DistinctTasks(batch)
            && forall v: nat :: HasTask(batch, v) <==> v in ready
  {
    var batch := WaveOutcomes(w, host, ready);
    forall v: nat ensures HasTask(batch, v) <==> v in ready {
      if v in ready {
        var i :| 0 <= i < |ready| && ready[i] == v;
        assert batch[i].0 == v;
      }
    }
  }

  lemma WaveStatuses(w: Workflow, host: Host, k: nat, ready: seq<nat>, before: Ledger, launched: Statuses, after: Ledger)
    requires Runnable(w) && IsNextWave(w, host, k, ready)
    requires StatusesAfter(w, host, k, before.statuses) && Launched(ready, before.statuses, launched)
    requires Recorded(before.(statuses := launched), ReadTasks(w), WaveOutcomes(w, host, ready), after)
    ensures StatusesAfter(w, host, k + 1, after.statuses)
  {
    WaveTasks(w, host, k, ready);
    var batch := WaveOutcomes(w, host, ready);
    forall v: nat | v < |w.tasks| ensures after.statuses[v] == StatusAfter(w, host, k + 1, v) {
      assert before.statuses[v] == StatusAfter(w, host, k, v);
      if v in ready {
        var i :| 0 <= i < |ready| && ready[i] == v;
        assert batch[i] == (v, Meaning(w, host, v).value);
      } else {
        assert Ran(w, host, k + 1, v) <==> Ran(w, host, k, v);
      }
    }
  }

  ghost predicate IsOutputAfter(w: Workflow, host: Host, k: nat, outputs: Outputs, v: nat)
    requires Runnable(w)
  {
    && (v in outputs <==> Ran(w, host, k, v) && Meaning(w, host, v).value.Ok? && v in ReadTasks(w))
    && (v in outputs ==> Meaning(w, host, v) == Some(Ok(outputs[v])))
  }

  lemma WaveOutput(w: Workflow, host: Host, k: nat, ready: seq<nat>, before: Outputs, after: Outputs, v: nat)
    requires Runnable(w) && IsNextWave(w, host, k, ready)
    requires OutputsAfter(w, host, k, before)
    requires RecordedOutputs(before, ReadTasks(w), WaveOutcomes(w, host, ready), after)
    ensures IsOutputAfter(w, host, k + 1, after, v)
  {
    WaveTasks(w, host, k, ready);
    var batch := WaveOutcomes(w, host, ready);
    if v in ready {
      var i :| 0 <= i < |ready| && ready[i] == v;
      assert batch[i] == (v, Meaning(w, host, v).value);
      assert !Ran(w, host, k, v) && v !in before;
    } else {
      assert !HasTask(batch, v);
      assert Ran(w, host, k + 1, v) <==> Ran(w, host, k, v);
    }
  }

  lemma WaveOutputs(w: Workflow, host: Host, k: nat, ready: seq<nat>, before: Outputs, after: Outputs)
    requires Runnable(w) && IsNextWave(w, host, k, ready)
    requires OutputsAfter(w, host, k, before)
    requires RecordedOutputs(before, ReadTasks(w), WaveOutcomes(w, host, ready), after)
    ensures OutputsAfter(w, host, k + 1, after)
  {
    var next := k + 1;
    forall v: nat ensures IsOutputAfter(w, host, next, after, v) {
      WaveOutput(w, host, k, ready, before, after, v);
    }
    EachIsAfter(w, host, next, after);
  }

  lemma EachIsAfter(w: Workflow, host: Host, k: nat, outputs: Outputs)
    requires Runnable(w) && forall v: nat :: IsOutputAfter(w, host, k, outputs, v)
    ensures OutputsAfter(w, host, k, outputs)
  {
    forall v: nat
      ensures v in outputs <==> Ran(w, host, k, v) && Meaning(w, host, v).value.Ok? && v in ReadTasks(w)
      ensures v in outputs ==> Meaning(w, host, v) == Some(Ok(outputs[v]))
    {
      assert IsOutputAfter(w, host, k, outputs, v);
    }
  }

  /** Where the first outcome of a batch with a property stands among all tasks up to its depth. */
  lemma FirstInWave(w: Workflow, host: Host, k: nat, ready: seq<nat>, i: nat, u: nat)
    requires Runnable(w) && IsNextWave(w, host, k, ready) && i < |ready|
    requires Ran(w, host, k + 1, u) && !Ran(w, host, k, u)
    ensures u in ready
    ensures (forall j :: 0 <= j < i ==> ready[j] != u) ==> NoLater(GraphOf(w), ready[i], u)
  {
    assert u in ready;
    var j :| 0 <= j < |ready| && ready[j] == u;
    assert ready[i] in ready;
  }

  lemma WaveExit(w: Workflow, host: Host, k: nat, ready: seq<nat>, exitStatus: int)
    requires Runnable(w) && IsNextWave(w, host, k, ready) && ExitAfter(w, host, k, exitStatus)
    ensures ExitAfter(w, host, k + 1, if exitStatus != 0 then exitStatus else FirstExit(WaveOutcomes(w, host, ready)))
  {
    var g, batch := GraphOf(w), WaveOutcomes(w, host, ready);
    if exitStatus != 0 {
      var v: nat :| ExitsBadly(w, host, k, v) && TaskStatusOf(Meaning(w, host, v).value) == exitStatus
                    && forall u: nat :: ExitsBadly(w, host, k, u) ==> NoLater(g, v, u);
      assert ExitsBadly(w, host, k + 1, v);
      forall u: nat | ExitsBadly(w, host, k + 1, u) ensures NoLater(g, v, u) {
        if Ran(w, host, k, u) { assert ExitsBadly(w, host, k, u); }
      }
    } else {
      FirstExitIsFirst(batch);
      forall u: nat | ExitsBadly(w, host, k + 1, u) ensures u in ready {
        assert !ExitsBadly(w, host, k, u);
      }
      if FirstExit(batch) != 0 {
        var i :| 0 <= i < |batch| && batch[i].1.Ok? && TaskStatusOf(batch[i].1) == FirstExit(batch)
                 && forall j :: 0 <= j < i && batch[j].1.Ok? ==> TaskStatusOf(batch[j].1) == 0;
        assert ready[i] in ready;
        assert ExitsBadly(w, host, k + 1, ready[i]);
        forall u: nat | ExitsBadly(w, host, k + 1, u) ensures NoLater(g, ready[i], u) {
          assert !ExitsBadly(w, host, k, u);
          forall j | 0 <= j < i ensures ready[j] != u { assert batch[j].0 == ready[j]; }
          FirstInWave(w, host, k, ready, i, u);
        }
      } else {
        forall j | 0 <= j < |ready| ensures !ExitsBadly(w, host, k + 1, ready[j]) {
          assert batch[j] == (ready[j], Meaning(w, host, ready[j]).value);
        }
      }
    }
  }

  lemma WaveError(w: Workflow, host: Host, k: nat, ready: seq<nat>)
    requires Runnable(w) && IsNextWave(w, host, k, ready) && NoErrorAfter(w, host, k)
    ensures match FirstError(WaveOutcomes(w, host, ready))
            case None => NoErrorAfter(w, host, k + 1)
            case Some(kind) => FirstErrorAfter(w, host, k + 1, kind)
  {
    var g, batch := GraphOf(w), WaveOutcomes(w, host, ready);
    FirstErrorIsFirst(batch);
    match FirstError(batch)
    case None =>
      forall j | 0 <= j < |ready| ensures !CannotRun(w, host, k + 1, ready[j]) {
        assert batch[j] == (ready[j], Meaning(w, host, ready[j]).value);
      }
      forall u: nat | CannotRun(w, host, k + 1, u) ensures u in ready {
        assert !CannotRun(w, host, k, u);
      }
    case Some(kind) =>
      var i :| 0 <= i < |batch| && batch[i].1 == Err(kind) && forall j :: 0 <= j < i ==> batch[j].1.Ok?;
      assert ready[i] in ready;
      assert CannotRun(w, host, k + 1, ready[i]);
      forall u: nat | CannotRun(w, host, k + 1, u) ensures NoLater(g, ready[i], u) {
        assert !CannotRun(w, host, k, u);
        forall j | 0 <= j < i ensures ready[j] != u { assert batch[j].0 == ready[j]; }
        FirstInWave(w, host, k, ready, i, u);
      }
  }
}
