/** Which tasks of a workflow may start, and what their ends leave behind. */
module Executions {
  import opened Outcomes
  import opened Graphs
  import opened Workflows

  datatype TaskStatus = Pending | Running | Succeeded | Failed

  type Statuses = seq<TaskStatus>

  /** Pending, and every dependency has succeeded. */
  predicate IsReady(g: Graph, statuses: Statuses, v: nat) {
    && v < |g| && v < |statuses| && statuses[v] == Pending
    && forall d :: d in g[v] ==> d < |statuses| && statuses[d] == Succeeded
  }

  function WithStatus(statuses: Statuses, status: TaskStatus, from: nat): (r: seq<nat>)
    requires from <= |statuses|
    ensures forall v :: v in r <==> from <= v < |statuses| && statuses[v] == status
    ensures forall i, j :: 0 <= i < j < |r| ==> r[i] < r[j]
    decreases |statuses| - from
  {
    if from == |statuses| then []
    else
      var rest := WithStatus(statuses, status, from + 1);
      assert forall j :: 0 <= j < |rest| ==> rest[j] in rest;
      if statuses[from] == status then [from] + rest else rest
  }

  /** Every ready task at or after `from`, in declaration order. */
  function ReadyTasks(g: Graph, statuses: Statuses, from: nat): (r: seq<nat>)
    requires from <= |g|
    ensures forall v :: v in r <==> from <= v && IsReady(g, statuses, v)
    ensures forall i, j :: 0 <= i < j < |r| ==> r[i] < r[j]
    decreases |g| - from
  {
    if from == |g| then []
    else
      var rest := ReadyTasks(g, statuses, from + 1);
      assert forall j :: 0 <= j < |rest| ==> rest[j] in rest;
      if IsReady(g, statuses, from) then [from] + rest else rest
  }

  /** The progress of one run of one workflow. */
  class WorkflowExecution {
    const workflow: Workflow
    var statuses: Statuses

    constructor (workflow: Workflow)
      ensures this.workflow == workflow
      ensures statuses == seq(|workflow.tasks|, _ => Pending)
    {
      this.workflow := workflow;
      this.statuses := seq(|workflow.tasks|, _ => Pending);
    }

    /** What may start now, first declared first. */
    method Ready() returns (r: seq<nat>)
      ensures forall v :: v in r <==> IsReady(GraphOf(workflow), statuses, v)
      ensures forall i, j :: 0 <= i < j < |r| ==> r[i] < r[j]
      ensures r == ReadyTasks(GraphOf(workflow), statuses, 0)
    {
      r := ReadyTasks(GraphOf(workflow), statuses, 0);
    }

    /** A ready task becomes running; for any other nothing happens. */
    method Start(index: nat) returns (r: Option<Task>)
      modifies this`statuses
      ensures if IsReady(GraphOf(workflow), old(statuses), index)
              then r == Some(workflow.tasks[index]) && statuses == old(statuses)[index := Running]
              else r == None && statuses == old(statuses)
    {
      if !IsReady(GraphOf(workflow), statuses, index) {
        return None;
      }
      statuses := statuses[index := Running];
      r := Some(workflow.tasks[index]);
    }

    /** Records how a running task ended; any other task stays as it is. */
    method Complete(index: nat, succeeded: bool) returns (r: bool)
      modifies this`statuses
      ensures r <==> index < |old(statuses)| && old(statuses)[index] == Running
      ensures statuses == if r then old(statuses)[index := if succeeded then Succeeded else Failed] else old(statuses)
    {
      if index >= |statuses| {
        return false;
      }
      if statuses[index] != Running {
        return false;
      }
      statuses := statuses[index := if succeeded then Succeeded else Failed];
      r := true;
    }

    method HasPending() returns (r: bool)
      ensures r <==> Pending in statuses
    {
      r := Pending in statuses;
    }

    /** The tasks that have not started. */
    method PendingTasks() returns (r: seq<nat>)
      ensures forall v :: v in r <==> 0 <= v < |statuses| && statuses[v] == Pending
      ensures forall i, j :: 0 <= i < j < |r| ==> r[i] < r[j]
      ensures r == WithStatus(statuses, Pending, 0)
    {
      r := WithStatus(statuses, Pending, 0);
    }
  }

  // ----- every order of starts and completions -----

  /** One `Start` or `Complete` that changes something; `succeeds` says how tasks end. */
  predicate Steps(g: Graph, succeeds: nat -> bool, before: Statuses, after: Statuses, v: nat) {
    || (IsReady(g, before, v) && after == before[v := Running])
    || (v < |before| && before[v] == Running && after == before[v := if succeeds(v) then Succeeded else Failed])
  }

  predicate CanStep(g: Graph, statuses: Statuses, v: nat) {
    IsReady(g, statuses, v) || (v < |statuses| && statuses[v] == Running)
  }

  /** Any sequence of calls: `moves[i]` is the task that the i-th call starts or completes. */
  ghost predicate IsRun(g: Graph, succeeds: nat -> bool, trace: seq<Statuses>, moves: seq<nat>) {
    && |trace| == |moves| + 1
    && trace[0] == seq(|g|, _ => Pending)
    && forall i :: 0 <= i < |moves| ==> Steps(g, succeeds, trace[i], trace[i + 1], moves[i])
  }

  /** No call changes anything any more. */
  ghost predicate Maximal(g: Graph, statuses: Statuses) {
    forall v: nat :: !CanStep(g, statuses, v)
  }

  predicate InRange(g: Graph) {
    forall v, k :: 0 <= v < |g| && 0 <= k < |g[v]| ==> g[v][k] < |g|
  }

  ghost function RankOf(g: Graph): (rank: seq<nat>)
    requires Acyclic(g)
    ensures IsRank(g, rank)
  {
    var rank :| IsRank(g, rank); rank
  }

  /** How a task ends, told from its dependencies alone. */
  ghost function Final(g: Graph, succeeds: nat -> bool, v: nat): TaskStatus
    requires Acyclic(g) && InRange(g) && v < |g|
    decreases RankOf(g)[v]
  {
    if forall d | d in g[v] :: Edge(g, v, d) && Final(g, succeeds, d) == Succeeded
    then if succeeds(v) then Succeeded else Failed
    else Pending
  }

  /** A task that is not pending is on its way to its final status, or there. */
  predicate OnTheWay(status: TaskStatus, final: TaskStatus) {
    match status
    case Pending => true
    case Running => final != Pending
    case _ => final == status
  }

  ghost predicate Agrees(g: Graph, succeeds: nat -> bool, statuses: Statuses)
    requires Acyclic(g) && InRange(g)
  {
    |statuses| == |g| && forall v: nat :: v < |g| ==> OnTheWay(statuses[v], Final(g, succeeds, v))
  }

  lemma {:induction false} RunsAgree(g: Graph, succeeds: nat -> bool, trace: seq<Statuses>, moves: seq<nat>, i: nat)
    requires Acyclic(g) && InRange(g) && IsRun(g, succeeds, trace, moves) && i < |trace|
    ensures Agrees(g, succeeds, trace[i])
  {
    if i > 0 {
      RunsAgree(g, succeeds, trace, moves, i - 1);
      assert Steps(g, succeeds, trace[i - 1], trace[i], moves[i - 1]);
      StepAgrees(g, succeeds, trace[i - 1], trace[i], moves[i - 1]);
    }
  }

  lemma StepAgrees(g: Graph, succeeds: nat -> bool, before: Statuses, after: Statuses, v: nat)
    requires Acyclic(g) && InRange(g) && Agrees(g, succeeds, before) && Steps(g, succeeds, before, after, v)
    ensures Agrees(g, succeeds, after)
  {
    if IsReady(g, before, v) {
      forall d | d in g[v] ensures Edge(g, v, d) && Final(g, succeeds, d) == Succeeded {
        assert before[d] == Succeeded;
      }
    }
  }

  /** A state nothing can change holds the final status of every task. */
  lemma {:induction false} MaximalIsFinal(g: Graph, succeeds: nat -> bool, statuses: Statuses, v: nat)
    requires Acyclic(g) && InRange(g) && Agrees(g, succeeds, statuses) && Maximal(g, statuses) && v < |g|
    ensures statuses[v] == Final(g, succeeds, v)
    decreases RankOf(g)[v]
  {
    assert !CanStep(g, statuses, v);
    forall d | d in g[v] ensures statuses[d] == Final(g, succeeds, d) {
      assert Edge(g, v, d);
      MaximalIsFinal(g, succeeds, statuses, d);
    }
  }

  /**
   * Confluence: whatever the order of starts and completions, two runs that
   * cannot go on end with the same statuses.
   */
  lemma Confluence(g: Graph, succeeds: nat -> bool, trace: seq<Statuses>, moves: seq<nat>, trace': seq<Statuses>, moves': seq<nat>)
    requires Acyclic(g) && InRange(g)
    requires IsRun(g, succeeds, trace, moves) && Maximal(g, trace[|trace| - 1])
    requires IsRun(g, succeeds, trace', moves') && Maximal(g, trace'[|trace'| - 1])
    ensures trace[|trace| - 1] == trace'[|trace'| - 1]
  {
    RunsAgree(g, succeeds, trace, moves, |trace| - 1);
    RunsAgree(g, succeeds, trace', moves', |trace'| - 1);
    var last, last' := trace[|trace| - 1], trace'[|trace'| - 1];
    forall v | 0 <= v < |g| ensures last[v] == last'[v] {
      MaximalIsFinal(g, succeeds, last, v);
      MaximalIsFinal(g, succeeds, last', v);
    }
  }

  /** `path` leads from `v` along dependencies to a task that ended as failed. */
  ghost predicate LeadsToFailure(g: Graph, statuses: Statuses, v: nat, path: seq<nat>) {
    |path| >= 2 && path[0] == v && IsPath(g, path) && |statuses| == |g| && statuses[path[|path| - 1]] == Failed
  }

  /** The tasks left pending are exactly the transitive dependents of a failed task. */
  lemma BlockedExactlyBehindFailures(g: Graph, succeeds: nat -> bool, trace: seq<Statuses>, moves: seq<nat>, v: nat)
    requires Acyclic(g) && InRange(g) && v < |g|
    requires IsRun(g, succeeds, trace, moves) && Maximal(g, trace[|trace| - 1])
    ensures var last := trace[|trace| - 1];
            |last| == |g| && (last[v] == Pending <==> exists path :: LeadsToFailure(g, last, v, path))
  {
    var last := trace[|trace| - 1];
    RunsAgree(g, succeeds, trace, moves, |trace| - 1);
    forall u | 0 <= u < |g| ensures last[u] == Final(g, succeeds, u) {
      MaximalIsFinal(g, succeeds, last, u);
    }
    if last[v] == Pending {
      var path := PathToFailure(g, succeeds, last, v);
    }
    forall path | LeadsToFailure(g, last, v, path) ensures last[v] == Pending {
      FailureBlocks(g, succeeds, last, path);
    }
  }

  lemma {:induction false} PathToFailure(g: Graph, succeeds: nat -> bool, last: Statuses, v: nat) returns (path: seq<nat>)
    requires Acyclic(g) && InRange(g) && v < |g| && |last| == |g|
    requires forall u :: 0 <= u < |g| ==> last[u] == Final(g, succeeds, u)
    requires last[v] == Pending
    ensures LeadsToFailure(g, last, v, path)
    decreases RankOf(g)[v]
  {
    var d :| d in g[v] && Final(g, succeeds, d) != Succeeded;
    assert Edge(g, v, d);
    if Final(g, succeeds, d) == Failed {
      path := [v, d];
    } else {
      var rest := PathToFailure(g, succeeds, last, d);
      path := [v] + rest;
      assert forall i :: 0 < i < |path| ==> path[i] == rest[i - 1];
    }
  }

  lemma {:induction false} FailureBlocks(g: Graph, succeeds: nat -> bool, last: Statuses, path: seq<nat>)
    requires Acyclic(g) && InRange(g) && |last| == |g|
    requires forall u :: 0 <= u < |g| ==> last[u] == Final(g, succeeds, u)
    requires |path| >= 2 && LeadsToFailure(g, last, path[0], path)
    ensures last[path[0]] == Pending
    decreases |path|
  {
    var rest := path[1..];
    assert path[0 + 1] in g[path[0]];
    if |rest| >= 2 {
      assert forall i :: 0 <= i < |rest| ==> rest[i] == path[i + 1];
      assert IsPath(g, rest) by {
        forall i | 0 <= i < |rest| - 1 ensures rest[i + 1] in g[rest[i]] {
          assert path[(i + 1) + 1] in g[path[i + 1]];
        }
      }
      FailureBlocks(g, succeeds, last, rest);
    }
    assert Final(g, succeeds, path[1]) != Succeeded;
  }

  /** What is left to do: two calls for a pending task, one for a running one. */
  function Remaining(statuses: Statuses): nat {
    if statuses == [] then 0
    else (match statuses[0]
          case Pending => 2
          case Running => 1
          case _ => 0) + Remaining(statuses[1..])
  }

  lemma {:induction false} RemainingFalls(statuses: Statuses, v: nat, status: TaskStatus)
    requires v < |statuses|
    requires (statuses[v] == Pending && status == Running) || (statuses[v] == Running && (status == Succeeded || status == Failed))
    ensures Remaining(statuses[v := status]) == Remaining(statuses) - 1
  {
    if v > 0 {
      assert statuses[v := status][1..] == statuses[1..][v - 1 := status];
      RemainingFalls(statuses[1..], v - 1, status);
    } else {
      assert statuses[v := status][1..] == statuses[1..];
    }
  }

  lemma {:induction false} RemainingAtStart(n: nat)
    ensures Remaining(seq(n, _ => Pending)) == 2 * n
  {
    if n > 0 {
      assert seq(n, _ => Pending)[1..] == seq(n - 1, _ => Pending);
      RemainingAtStart(n - 1);
    }
  }

  /** Every sequence of calls is finite: a task starts once and completes once. */
  lemma {:induction false} RunsEnd(g: Graph, succeeds: nat -> bool, trace: seq<Statuses>, moves: seq<nat>, i: nat)
    requires IsRun(g, succeeds, trace, moves) && i <= |moves|
    ensures |trace[i]| == |g| && Remaining(trace[i]) + i == 2 * |g|
  {
    if i == 0 {
      RemainingAtStart(|g|);
      assert trace[0] == seq(|g|, _ => Pending);
    } else {
      RunsEnd(g, succeeds, trace, moves, i - 1);
      assert Steps(g, succeeds, trace[i - 1], trace[i], moves[i - 1]);
      var v := moves[i - 1];
      RemainingFalls(trace[i - 1], v, trace[i][v]);
    }
  }
}
