/** What a workflow means, told by recursion over its dependencies and without any schedule. */
module Meanings {
  import opened Outcomes
  import opened Templates
  import opened Graphs
  import opened Workflows
  import opened Executions
  import opened Streams

  /** The machine a run happens on: how a filled request executes, and how bytes read as text. */
  datatype Host = Host(execute: (nat, TaskRequest) -> Execution, decode: seq<byte> -> string)

  type Outputs = map<nat, ProcessOutput>

  datatype RunError =
    | NotReady
    | InvalidText(error: TemplateError)
    | NoOutputYet(reference: OutputReference)
    | NotRunning
    | ProcessFailed(kind: ErrorKind)
    | CallbackFailed

  // ----- filling a request -----

  /** The text without the carriage returns and line feeds it ends in. */
  function TrimNewlines(text: string): (r: string)
    ensures IsCutAtNewlines(text, r)
  {
    if text != "" && (text[|text| - 1] == '\r' || text[|text| - 1] == '\n') then TrimNewlines(text[..|text| - 1]) else text
  }

  /** `cut` is the text up to its last character that is no newline. */
  predicate IsCutAtNewlines(text: string, cut: string) {
    && cut <= text
    && (forall i :: |cut| <= i < |text| ==> text[i] == '\r' || text[i] == '\n')
    && (cut != "" ==> cut[|cut| - 1] != '\r' && cut[|cut| - 1] != '\n')
  }

  /** The text of a stream, its final newlines cut off. */
  function OutputText(host: Host, output: ProcessOutput, stream: TaskOutput): string {
    TrimNewlines(host.decode(output.Bytes(stream)))
  }

  function Lookup(w: Workflow, host: Host, outputs: Outputs, reference: OutputReference): Option<string> {
    match IndexOf(w, reference.task)
    case None => None
    case Some(index) =>
      if index in outputs then Some(OutputText(host, outputs[index], reference.output)) else None
  }

  function Lookups(w: Workflow, host: Host, outputs: Outputs): OutputReference -> Option<string> {
    reference => Lookup(w, host, outputs, reference)
  }

  function FillText(w: Workflow, host: Host, outputs: Outputs, text: string): Result<string, RunError> {
    match Segments(text)
    case Err(error) => Err(InvalidText(error))
    case Ok(segments) =>
      match Filled(segments, Lookups(w, host, outputs))
      case Err(reference) => Err(NoOutputYet(reference))
      case Ok(filled) => Ok(filled)
  }

  function FillTexts(w: Workflow, host: Host, outputs: Outputs, texts: seq<string>): (r: Result<seq<string>, RunError>)
    ensures r.Ok? ==> |r.value| == |texts|
  {
    if texts == [] then Ok([])
    else match FillText(w, host, outputs, texts[0])
         case Err(error) => Err(error)
         case Ok(first) =>
           match FillTexts(w, host, outputs, texts[1..])
           case Err(error) => Err(error)
           case Ok(rest) => Ok([first] + rest)
  }

  /** The request with every placeholder replaced by the output it names. */
  function Fill(w: Workflow, host: Host, outputs: Outputs, request: TaskRequest): Result<TaskRequest, RunError> {
    match FillTexts(w, host, outputs, request.Texts())
    case Err(error) => Err(error)
    case Ok(texts) => Ok(request.WithTexts(texts))
  }

  /** What a reference stands for: the decoded stream of the task it names, without the newlines at its end. */
  predicate StandsFor(w: Workflow, host: Host, outputs: Outputs, reference: OutputReference, text: string) {
    exists v :: v in outputs && IsOutputOf(w, host, outputs[v], v, reference, text)
  }

  predicate IsOutputOf(w: Workflow, host: Host, output: ProcessOutput, v: nat, reference: OutputReference, text: string) {
    v < |w.tasks| && w.tasks[v].id == reference.task
    && IsCutAtNewlines(host.decode(if reference.output == Stdout then output.stdout else output.stderr), text)
  }

  lemma CutOnce(text: string, one: string, other: string)
    requires IsCutAtNewlines(text, one) && IsCutAtNewlines(text, other)
    ensures one == other
  {
    assert |one| == |other|;
  }

  /** Looking a reference up gives exactly what it stands for. */
  lemma LookupIsExact(w: Workflow, host: Host, outputs: Outputs, reference: OutputReference, text: string)
    requires forall u, v :: 0 <= u < v < |w.tasks| ==> w.tasks[u].id != w.tasks[v].id
    ensures Lookup(w, host, outputs, reference) == Some(text) <==> StandsFor(w, host, outputs, reference, text)
  {
    if StandsFor(w, host, outputs, reference, text) {
      var v :| v in outputs && IsOutputOf(w, host, outputs[v], v, reference, text);
      assert IndexOf(w, reference.task) == Some(v);
      CutOnce(host.decode(outputs[v].Bytes(reference.output)), OutputText(host, outputs[v], reference.output), text);
    }
    if Lookup(w, host, outputs, reference) == Some(text) {
      var v := IndexOf(w, reference.task).value;
      assert IsOutputOf(w, host, outputs[v], v, reference, text);
    }
  }

  /** The filled text is the text with each reference in it replaced by what it stands for. */
  predicate IsFilledText(w: Workflow, host: Host, outputs: Outputs, text: string, filled: string) {
    Segments(text).Ok? && Replaces(Segments(text).value, Lookups(w, host, outputs), filled)
  }

  /** The same request but for its prompt or its arguments, which are filled one by one. */
  predicate IsFilled(w: Workflow, host: Host, outputs: Outputs, request: TaskRequest, filled: TaskRequest) {
    match request
    case Harness(harness, prompt, options) =>
      filled.Harness? && filled.harness == harness && filled.options == options && IsFilledText(w, host, outputs, prompt, filled.prompt)
    case Command(program, arguments) =>
      filled.Command? && filled.program == program && |filled.arguments| == |arguments|
      && forall i :: 0 <= i < |arguments| ==> IsFilledText(w, host, outputs, arguments[i], filled.arguments[i])
  }

  lemma {:induction false} TextsAreFilled(w: Workflow, host: Host, outputs: Outputs, texts: seq<string>)
    requires FillTexts(w, host, outputs, texts).Ok?
    ensures forall i :: 0 <= i < |texts| ==> IsFilledText(w, host, outputs, texts[i], FillTexts(w, host, outputs, texts).value[i])
  {
    if texts != [] {
      TextsAreFilled(w, host, outputs, texts[1..]);
      FilledReplaces(Segments(texts[0]).value, Lookups(w, host, outputs));
    }
  }

  /** Filling replaces the references of the prompt or the arguments, and nothing else. */
  lemma FillIsExact(w: Workflow, host: Host, outputs: Outputs, request: TaskRequest)
    requires Fill(w, host, outputs, request).Ok?
    ensures IsFilled(w, host, outputs, request, Fill(w, host, outputs, request).value)
  {
    TextsAreFilled(w, host, outputs, request.Texts());
  }

  /** The outputs hold something for every reference of the task. */
  predicate HasSources(w: Workflow, task: Task, outputs: Outputs) {
    forall d :: d in task.dependencies && d in task.sources ==> d in outputs
  }

  predicate SameSources(task: Task, outputs: Outputs, outputs': Outputs) {
    forall d :: d in task.dependencies && d in task.sources && d in outputs && d in outputs' ==> outputs[d] == outputs'[d]
  }

  lemma {:induction false} FilledFromSources(w: Workflow, host: Host, task: Task, outputs: Outputs, outputs': Outputs, segments: seq<Segment>)
    requires HasSources(w, task, outputs) && HasSources(w, task, outputs') && SameSources(task, outputs, outputs')
    requires forall reference :: reference in References(segments) ==> ReadsDependency(w, task, reference)
    ensures Filled(segments, Lookups(w, host, outputs)).Ok?
    ensures Filled(segments, Lookups(w, host, outputs))
         == Filled(segments, Lookups(w, host, outputs'))
  {
    if segments != [] {
      FilledFromSources(w, host, task, outputs, outputs', segments[1..]);
      if segments[0].Output? {
        assert segments[0].reference in References(segments);
      }
    }
  }

  lemma {:induction false} TextsFromSources(w: Workflow, host: Host, task: Task, outputs: Outputs, outputs': Outputs, texts: seq<string>)
    requires HasSources(w, task, outputs) && HasSources(w, task, outputs') && SameSources(task, outputs, outputs')
    requires forall text :: text in texts ==>
               Segments(text).Ok? && forall reference :: reference in References(Segments(text).value) ==> ReadsDependency(w, task, reference)
    ensures FillTexts(w, host, outputs, texts).Ok?
    ensures FillTexts(w, host, outputs, texts) == FillTexts(w, host, outputs', texts)
  {
    if texts != [] {
      FilledFromSources(w, host, task, outputs, outputs', Segments(texts[0]).value);
      TextsFromSources(w, host, task, outputs, outputs', texts[1..]);
    }
  }

  /** A filled request depends on the outputs of the task's own sources and on nothing else. */
  lemma FillFromSources(w: Workflow, host: Host, task: Task, outputs: Outputs, outputs': Outputs)
    requires TextsReadDependencies(w, task)
    requires HasSources(w, task, outputs) && HasSources(w, task, outputs') && SameSources(task, outputs, outputs')
    ensures Fill(w, host, outputs, task.request).Ok?
    ensures Fill(w, host, outputs, task.request) == Fill(w, host, outputs', task.request)
  {
    TextsFromSources(w, host, task, outputs, outputs', task.request.Texts());
  }

  // ----- the meaning of a task -----

  /** What an outcome contributes to the exit status; without a code of its own it contributes 1. */
  function TaskStatusOf(outcome: Outcome): int {
    match outcome
    case Err(_) => 1
    case Ok(output) => if output.status.Some? then output.status.value else 1
  }

  predicate Succeeds(outcome: Option<Outcome>) {
    outcome.Some? && TaskStatusOf(outcome.value) == 0
  }

  ghost predicate Runnable(w: Workflow) {
    Valid(w) && InRange(GraphOf(w))
  }

  lemma ValidIsRunnable(w: Workflow)
    requires Valid(w)
    ensures Runnable(w)
  {
    forall v, k | 0 <= v < |w.tasks| && 0 <= k < |w.tasks[v].dependencies| ensures GraphOf(w)[v][k] < |w.tasks| {
      assert w.tasks[v].dependencies[k] in w.tasks[v].dependencies;
    }
  }

  /**
   * How a task ends: the execution of its request, filled from what its
   * dependencies printed, or `None` when some dependency did not exit zero.
   */
  ghost function Meaning(w: Workflow, host: Host, v: nat): Option<Outcome>
    requires Runnable(w) && v < |w.tasks|
    decreases RankOf(GraphOf(w))[v]
  {
    var task := w.tasks[v];
    if forall d | d in task.dependencies :: Edge(GraphOf(w), v, d) && Succeeds(Meaning(w, host, d)) then
      var outputs := map d | d in task.dependencies :: Meaning(w, host, d).value.value;
      match Fill(w, host, outputs, task.request)
      case Err(_) => None
      case Ok(request) => Some(OutcomeOf(host.execute(v, request)))
    else None
  }

  /** Every dependency of the task exits zero. */
  ghost predicate Unblocked(w: Workflow, host: Host, v: nat)
    requires Runnable(w) && v < |w.tasks|
  {
    forall d :: d in w.tasks[v].dependencies ==> Succeeds(Meaning(w, host, d))
  }

  /** A task has a meaning exactly when nothing blocks it, whatever outputs its request is filled from. */
  lemma MeaningOf(w: Workflow, host: Host, v: nat, outputs: Outputs)
    requires Runnable(w) && v < |w.tasks|
    requires forall d :: d in w.tasks[v].dependencies && d in w.tasks[v].sources ==> d in outputs
    requires forall d :: d in w.tasks[v].dependencies && d in outputs && Meaning(w, host, d).Some? ==> Meaning(w, host, d) == Some(Ok(outputs[d]))
    requires Unblocked(w, host, v)
    ensures Fill(w, host, outputs, w.tasks[v].request).Ok?
    ensures Meaning(w, host, v) == Some(OutcomeOf(host.execute(v, Fill(w, host, outputs, w.tasks[v].request).value)))
  {
    var task := w.tasks[v];
    assert forall d | d in task.dependencies :: Edge(GraphOf(w), v, d) && Succeeds(Meaning(w, host, d));
    var own := map d | d in task.dependencies :: Meaning(w, host, d).value.value;
    FillFromSources(w, host, task, own, outputs);
  }

  lemma BlockedMeansNone(w: Workflow, host: Host, v: nat)
    requires Runnable(w) && v < |w.tasks|
    ensures Meaning(w, host, v).Some? <==> Unblocked(w, host, v)
  {
    if Unblocked(w, host, v) {
      var outputs := map d | d in w.tasks[v].dependencies :: Meaning(w, host, d).value.value;
      MeaningOf(w, host, v, outputs);
    }
  }

  // ----- how processes end -----

  /** The process ran to its end and exited with the code. */
  predicate ExitsWith(execution: Execution, code: int) {
    execution.Child? && execution.wait == Ok(Some(code))
  }

  /** A signal ended the process, so that it has no exit code. */
  predicate IsKilled(execution: Execution) {
    execution.Child? && execution.wait == Ok(None)
  }

  /** The process could not be started, or could not be waited for. */
  predicate CannotExecute(execution: Execution, kind: ErrorKind) {
    execution == SpawnError(kind) || (execution.Child? && execution.wait == Err(kind))
  }

  /** The execution of the task's own request, filled from what its dependencies printed. */
  ghost function ExecutionOf(w: Workflow, host: Host, v: nat): (execution: Execution)
    requires Runnable(w) && v < |w.tasks| && Meaning(w, host, v).Some?
    ensures Meaning(w, host, v) == Some(OutcomeOf(execution))
  {
    BlockedMeansNone(w, host, v);
    var outputs := OwnOutputs(w, host, v);
    MeaningOf(w, host, v, outputs);
    host.execute(v, Fill(w, host, outputs, w.tasks[v].request).value)
  }

  /** What the dependencies of an unblocked task printed. */
  ghost function OwnOutputs(w: Workflow, host: Host, v: nat): (outputs: Outputs)
    requires Runnable(w) && v < |w.tasks| && Unblocked(w, host, v)
    ensures forall d :: d in w.tasks[v].dependencies ==> d in outputs && Meaning(w, host, d) == Some(Ok(outputs[d]))
  {
    map d | d in w.tasks[v].dependencies :: Meaning(w, host, d).value.value
  }

  /** The process a task runs is that of its own request, each reference in it replaced by what a dependency printed. */
  lemma ExecutesFilledRequest(w: Workflow, host: Host, v: nat)
    requires Runnable(w) && v < |w.tasks| && Meaning(w, host, v).Some?
    ensures Unblocked(w, host, v)
    ensures exists filled :: IsFilled(w, host, OwnOutputs(w, host, v), w.tasks[v].request, filled)
                             && ExecutionOf(w, host, v) == host.execute(v, filled)
  {
    BlockedMeansNone(w, host, v);
    var outputs := OwnOutputs(w, host, v);
    MeaningOf(w, host, v, outputs);
    FillIsExact(w, host, outputs, w.tasks[v].request);
  }

  /** A task succeeds exactly when its process exits zero: one that a signal ended does not, nor one that did not start. */
  lemma SucceedsExactly(w: Workflow, host: Host, v: nat)
    requires Runnable(w) && v < |w.tasks|
    ensures Succeeds(Meaning(w, host, v)) <==> Meaning(w, host, v).Some? && ExitsWith(ExecutionOf(w, host, v), 0)
  {
  }

  /** A task runs exactly when the process of each of its dependencies runs and exits zero. */
  lemma RunsExactlyBehindZeros(w: Workflow, host: Host, v: nat)
    requires Runnable(w) && v < |w.tasks|
    ensures Meaning(w, host, v).Some? <==>
            forall d :: d in w.tasks[v].dependencies ==> Meaning(w, host, d).Some? && ExitsWith(ExecutionOf(w, host, d), 0)
  {
    BlockedMeansNone(w, host, v);
    forall d | d in w.tasks[v].dependencies
      ensures Succeeds(Meaning(w, host, d)) <==> Meaning(w, host, d).Some? && ExitsWith(ExecutionOf(w, host, d), 0)
    {
      SucceedsExactly(w, host, d);
    }
  }

  /** An execution error is told as itself; a process that ran is told with its code and every byte of a whole stream. */
  lemma OutcomeIsExact(execution: Execution)
    ensures forall kind :: OutcomeOf(execution) == Err(kind) <==> CannotExecute(execution, kind)
    ensures OutcomeOf(execution).Ok? ==>
              var output := OutcomeOf(execution).value;
              && execution.Child? && execution.wait == Ok(output.status)
              && (!execution.out.broken ==> output.stdout == execution.out.bytes)
              && (!execution.err.broken ==> output.stderr == execution.err.bytes)
  {
    if OutcomeOf(execution).Ok? {
      if !execution.out.broken { AllDelivered(execution.out); }
      if !execution.err.broken { AllDelivered(execution.err); }
    }
  }

  // ----- depth -----

  /** The number of tasks on the longest dependency path from `v`. */
  ghost function Depth(g: Graph, v: nat): (n: nat)
    requires Acyclic(g) && InRange(g) && v < |g|
    ensures n >= 1
    decreases RankOf(g)[v], |g[v]| + 2
  {
    1 + DepthBelow(g, v, |g[v]|)
  }

  /** The depth of the `i`-th dependency. */
  ghost function ChildDepth(g: Graph, v: nat, i: nat): nat
    requires Acyclic(g) && InRange(g) && v < |g| && i < |g[v]|
    decreases RankOf(g)[v], 0
  {
    assert Edge(g, v, g[v][i]);
    Depth(g, g[v][i])
  }

  ghost function DepthBelow(g: Graph, v: nat, k: nat): (n: nat)
    requires Acyclic(g) && InRange(g) && v < |g| && k <= |g[v]|
    ensures forall i :: 0 <= i < k ==> ChildDepth(g, v, i) <= n
    ensures n > 0 ==> exists i :: 0 <= i < k && ChildDepth(g, v, i) == n
    decreases RankOf(g)[v], k + 1
  {
    if k == 0 then 0
    else
      var below, last := DepthBelow(g, v, k - 1), ChildDepth(g, v, k - 1);
      if last > below then last else below
  }

  /** Every dependency is less deep. */
  lemma DependenciesAreShallower(g: Graph, v: nat)
    requires Acyclic(g) && InRange(g) && v < |g|
    ensures forall d :: d in g[v] ==> Depth(g, d) < Depth(g, v)
  {
    forall d | d in g[v] ensures Depth(g, d) < Depth(g, v) {
      var i :| 0 <= i < |g[v]| && g[v][i] == d;
      assert ChildDepth(g, v, i) <= DepthBelow(g, v, |g[v]|);
    }
  }

  /** Below a task that is not at the bottom there is a dependency one less deep. */
  lemma DeepestDependency(g: Graph, v: nat) returns (i: nat)
    requires Acyclic(g) && InRange(g) && v < |g| && Depth(g, v) > 1
    ensures i < |g[v]| && Edge(g, v, g[v][i]) && Depth(g, g[v][i]) + 1 == Depth(g, v)
  {
    i :| 0 <= i < |g[v]| && ChildDepth(g, v, i) == DepthBelow(g, v, |g[v]|);
  }

  /** Some dependency path from `v` has as many tasks as its depth. */
  lemma {:induction false} DeepestPath(g: Graph, v: nat) returns (path: seq<nat>)
    requires Acyclic(g) && InRange(g) && v < |g|
    ensures IsPath(g, path) && |path| == Depth(g, v) && path[0] == v
    decreases Depth(g, v)
  {
    if Depth(g, v) == 1 {
      path := [v];
    } else {
      var i := DeepestDependency(g, v);
      var rest := DeepestPath(g, g[v][i]);
      path := [v] + rest;
      assert forall j :: 0 < j < |path| ==> path[j] == rest[j - 1];
    }
  }

  /** No dependency path from `v` has more. */
  lemma {:induction false} NoDeeperPath(g: Graph, path: seq<nat>)
    requires Acyclic(g) && InRange(g) && IsPath(g, path) && |path| >= 1
    ensures |path| <= Depth(g, path[0])
  {
    if |path| > 1 {
      var rest := path[1..];
      assert path[0 + 1] in g[path[0]];
      assert forall i :: 0 <= i < |rest| ==> rest[i] == path[i + 1];
      assert IsPath(g, rest) by {
        forall i | 0 <= i < |rest| - 1 ensures rest[i + 1] in g[rest[i]] {
          assert path[(i + 1) + 1] in g[path[i + 1]];
        }
      }
      NoDeeperPath(g, rest);
      DependenciesAreShallower(g, path[0]);
    }
  }
}
