/** Recording the outcomes of a wave, which arrive in completion order. */
module Recording {
  import opened Outcomes
  import opened Executions
  import opened Streams
  import opened Meanings

  type TaskOutcome = (nat, Outcome)

  // ----- sorting -----

  function Insert(outcome: TaskOutcome, sorted: seq<TaskOutcome>): seq<TaskOutcome> {
    if sorted == [] || outcome.0 <= sorted[0].0 then [outcome] + sorted
    else [sorted[0]] + Insert(outcome, sorted[1..])
  }

  /** The outcomes in declaration order; equal positions keep their order. */
  function SortByTask(outcomes: seq<TaskOutcome>): seq<TaskOutcome> {
    if outcomes == [] then [] else Insert(outcomes[0], SortByTask(outcomes[1..]))
  }

  predicate Increasing(outcomes: seq<TaskOutcome>) {
    forall i, j :: 0 <= i < j < |outcomes| ==> outcomes[i].0 < outcomes[j].0
  }

  predicate DistinctTasks(outcomes: seq<TaskOutcome>) {
    forall i, j :: 0 <= i < j < |outcomes| ==> outcomes[i].0 != outcomes[j].0
  }

  lemma {:induction false} InsertKeeps(outcome: TaskOutcome, sorted: seq<TaskOutcome>)
    requires Increasing(sorted) && forall i :: 0 <= i < |sorted| ==> sorted[i].0 != outcome.0
    ensures Increasing(Insert(outcome, sorted))
    ensures forall x :: x in Insert(outcome, sorted) <==> x == outcome || x in sorted
  {
    if sorted == [] || outcome.0 <= sorted[0].0 {
    } else {
      InsertKeeps(outcome, sorted[1..]);
      var rest := Insert(outcome, sorted[1..]);
      forall j | 0 <= j < |rest| ensures sorted[0].0 < rest[j].0 {
        assert rest[j] in rest;
        if rest[j] != outcome {
          var i :| 0 <= i < |sorted[1..]| && sorted[1..][i] == rest[j];
          assert sorted[i + 1] == rest[j];
        }
      }
      assert sorted == [sorted[0]] + sorted[1..];
    }
  }

  lemma {:induction false} SortKeeps(outcomes: seq<TaskOutcome>)
    requires DistinctTasks(outcomes)
    ensures Increasing(SortByTask(outcomes))
    ensures forall x :: x in SortByTask(outcomes) <==> x in outcomes
  {
    if outcomes != [] {
      SortKeeps(outcomes[1..]);
      var sorted := SortByTask(outcomes[1..]);
      forall i | 0 <= i < |sorted| ensures sorted[i].0 != outcomes[0].0 {
        assert sorted[i] in sorted;
        var j :| 0 <= j < |outcomes[1..]| && outcomes[1..][j] == sorted[i];
        assert outcomes[j + 1] == sorted[i];
      }
      InsertKeeps(outcomes[0], sorted);
      assert outcomes == [outcomes[0]] + outcomes[1..];
    }
  }

  predicate SameOutcomes(left: seq<TaskOutcome>, right: seq<TaskOutcome>) {
    (forall i :: 0 <= i < |left| ==> left[i] in right) && (forall i :: 0 <= i < |right| ==> right[i] in left)
  }

  /** Two increasing sequences that hold the same outcomes are the same sequence. */
  lemma {:induction false} IncreasingIsUnique(left: seq<TaskOutcome>, right: seq<TaskOutcome>)
    requires Increasing(left) && Increasing(right) && SameOutcomes(left, right)
    ensures left == right
  {
    if left != [] {
      assert left[0] in right;
      FirstsAgree(left, right);
      TailHoldsRest(left, right);
      TailHoldsRest(right, left);
      IncreasingIsUnique(left[1..], right[1..]);
    }
  }

  lemma FirstsAgree(left: seq<TaskOutcome>, right: seq<TaskOutcome>)
    requires Increasing(left) && Increasing(right) && SameOutcomes(left, right) && left != [] && right != []
    ensures left[0] == right[0]
  {
    var i :| 0 <= i < |right| && right[i] == left[0];
    var j :| 0 <= j < |left| && left[j] == right[0];
  }

  lemma TailHoldsRest(left: seq<TaskOutcome>, right: seq<TaskOutcome>)
    requires Increasing(left) && SameOutcomes(left, right) && left != [] && right != [] && left[0] == right[0]
    ensures forall i :: 0 <= i < |left[1..]| ==> left[1..][i] in right[1..]
  {
    forall i | 0 <= i < |left[1..]| ensures left[1..][i] in right[1..] {
      var j :| 0 <= j < |right| && right[j] == left[i + 1];
      assert right[1..][j - 1] == left[i + 1];
    }
  }

  // ----- recording -----

  /** What recording changes: the statuses, the kept outputs, the exit status, the first error. */
  datatype Ledger = Ledger(statuses: Statuses, outputs: Outputs, exitStatus: int, error: Option<ErrorKind>)

  predicate IsRunning(statuses: Statuses, v: nat) {
    v < |statuses| && statuses[v] == Running
  }

  function Record(ledger: Ledger, readTasks: set<nat>, task: nat, outcome: Outcome): Ledger
    requires IsRunning(ledger.statuses, task)
  {
    var status := TaskStatusOf(outcome);
    var statuses := ledger.statuses[task := if status == 0 then Succeeded else TaskStatus.Failed];
    match outcome
    case Ok(output) =>
      Ledger(statuses,
             if task in readTasks then ledger.outputs[task := output] else ledger.outputs,
             if status != 0 && ledger.exitStatus == 0 then status else ledger.exitStatus,
             ledger.error)
    case Err(kind) =>
      Ledger(statuses, ledger.outputs, ledger.exitStatus, if ledger.error.None? then Some(kind) else ledger.error)
  }

  /** Records outcomes in the order given; stops at a task that is not running. */
  function RecordAll(ledger: Ledger, readTasks: set<nat>, outcomes: seq<TaskOutcome>): Result<Ledger, RunError> {
    if outcomes == [] then Ok(ledger)
    else
      var last := outcomes[|outcomes| - 1];
      match RecordAll(ledger, readTasks, outcomes[..|outcomes| - 1])
      case Err(error) => Err(error)
      case Ok(before) =>
        if IsRunning(before.statuses, last.0) then Ok(Record(before, readTasks, last.0, last.1)) else Err(NotRunning)
  }

  /** Sorts the outcomes into declaration order and records them. */
  method RecordOutcomes(execution: WorkflowExecution, outcomes: seq<TaskOutcome>, readTasks: set<nat>, outputs: Outputs, exitStatus: int)
    returns (r: Result<(), RunError>, newOutputs: Outputs, newStatus: int)
    modifies execution`statuses
    ensures match RecordAll(Ledger(old(execution.statuses), outputs, exitStatus, None), readTasks, SortByTask(outcomes))
            case Err(error) => r == Err(error)
            case Ok(ledger) =>
              && execution.statuses == ledger.statuses && newOutputs == ledger.outputs && newStatus == ledger.exitStatus
              && r == (if ledger.error.Some? then Err(ProcessFailed(ledger.error.value)) else Ok(()))
  {
    var sorted := SortByTask(outcomes);
    var executionError: Option<ErrorKind> := None;
    newOutputs, newStatus := outputs, exitStatus;
    ghost var start := Ledger(old(execution.statuses), outputs, exitStatus, None);
    for i := 0 to |sorted|
      invariant RecordAll(start, readTasks, sorted[..i]) == Ok(Ledger(execution.statuses, newOutputs, newStatus, executionError))
    {
      assert sorted[..i + 1][..i] == sorted[..i];
      var (index, outcome) := sorted[i];
      var status := TaskStatusOf(outcome);
      var completed := execution.Complete(index, status == 0);
      if !completed {
        RecordStops(start, readTasks, sorted, i + 1);
        return Err(NotRunning), newOutputs, newStatus;
      }
      match outcome {
        case Ok(output) =>
          if index in readTasks {
            newOutputs := newOutputs[index := output];
          }
          if status != 0 && newStatus == 0 {
            newStatus := status;
          }
        case Err(kind) =>
          if executionError.None? {
            executionError := Some(kind);
          }
      }
    }
    assert sorted[..|sorted|] == sorted;
    r := if executionError.Some? then Err(ProcessFailed(executionError.value)) else Ok(());
  }

  lemma {:induction false} RecordStops(ledger: Ledger, readTasks: set<nat>, outcomes: seq<TaskOutcome>, i: nat)
    requires i <= |outcomes| && RecordAll(ledger, readTasks, outcomes[..i]).Err?
    ensures RecordAll(ledger, readTasks, outcomes) == RecordAll(ledger, readTasks, outcomes[..i])
  {
    if i < |outcomes| {
      var shorter := outcomes[..|outcomes| - 1];
      assert shorter[..i] == outcomes[..i];
      RecordStops(ledger, readTasks, shorter, i);
    } else {
      assert outcomes[..i] == outcomes;
    }
  }

  /** Completion order does not matter: every permutation of a wave's outcomes records the same. */
  lemma RecordingIgnoresOrder(ledger: Ledger, readTasks: set<nat>, outcomes: seq<TaskOutcome>, outcomes': seq<TaskOutcome>)
    requires multiset(outcomes) == multiset(outcomes') && DistinctTasks(outcomes)
    ensures RecordAll(ledger, readTasks, SortByTask(outcomes)) == RecordAll(ledger, readTasks, SortByTask(outcomes'))
  {
    SortKeeps(outcomes);
    DistinctSurvivesReordering(outcomes, outcomes');
    SortKeeps(outcomes');
    assert forall x :: x in outcomes <==> x in multiset(outcomes);
    assert forall x :: x in outcomes' <==> x in multiset(outcomes');
    assert SameOutcomes(SortByTask(outcomes), SortByTask(outcomes'));
    IncreasingIsUnique(SortByTask(outcomes), SortByTask(outcomes'));
  }

  lemma DistinctSurvivesReordering(outcomes: seq<TaskOutcome>, outcomes': seq<TaskOutcome>)
    requires multiset(outcomes) == multiset(outcomes') && DistinctTasks(outcomes)
    ensures DistinctTasks(outcomes')
  {
    forall i, j | 0 <= i < j < |outcomes'| ensures outcomes'[i].0 != outcomes'[j].0 {
      var x, y := outcomes'[i], outcomes'[j];
      assert x in multiset(outcomes') && y in multiset(outcomes');
      var a :| 0 <= a < |outcomes| && outcomes[a] == x;
      var b :| 0 <= b < |outcomes| && outcomes[b] == y;
      if x == y {
        assert multiset(outcomes')[x] >= 2 by { TwoCopies(outcomes', i, j); }
        OneCopy(outcomes, a);
      }
    }
  }

  lemma TwoCopies(outcomes: seq<TaskOutcome>, i: nat, j: nat)
    requires i < j < |outcomes| && outcomes[i] == outcomes[j]
    ensures multiset(outcomes)[outcomes[i]] >= 2
  {
    assert outcomes == outcomes[..i] + [outcomes[i]] + outcomes[i + 1..j] + [outcomes[j]] + outcomes[j + 1..];
  }

  lemma OneCopy(outcomes: seq<TaskOutcome>, i: nat)
    requires DistinctTasks(outcomes) && i < |outcomes|
    ensures multiset(outcomes)[outcomes[i]] == 1
  {
    assert outcomes == outcomes[..i] + [outcomes[i]] + outcomes[i + 1..];
    assert outcomes[i] !in outcomes[..i] && outcomes[i] !in outcomes[i + 1..];
  }
}
