/** Task declarations, and the checks that turn them into a workflow. */
module Workflows {
  import opened Outcomes
  import opened TaskIds
  import opened Templates
  import opened Graphs
  import CycleSearch

  /** Harness options and sandbox policies are carried by name only. */
  datatype TaskRequest =
    | Harness(harness: string, prompt: string, options: string)
    | Command(program: string, arguments: seq<string>)
  {
    /** The parts of a request in which placeholders count. */
    function Texts(): seq<string> {
      match this
      case Harness(_, prompt, _) => [prompt]
      case Command(_, arguments) => arguments
    }

    /** The request with its texts replaced, one for one. */
    function WithTexts(texts: seq<string>): TaskRequest
      requires |texts| == |Texts()|
    {
      match this
      case Harness(harness, _, options) => Harness(harness, texts[0], options)
      case Command(program, _) => Command(program, texts)
    }
  }

  datatype TaskDefinition = TaskDefinition(id: TaskId, dependsOn: seq<TaskId>, request: TaskRequest)

  /** A task with resolved predecessors, and the tasks whose output it reads. */
  datatype Task = Task(id: TaskId, dependencies: seq<nat>, sources: seq<nat>, request: TaskRequest)

  datatype Workflow = Workflow(tasks: seq<Task>)

  datatype WorkflowError =
    | NoTasks
    | DuplicateTask(id: TaskId)
    | UnknownDependency(task: TaskId, dependency: TaskId)
    | SelfDependency(id: TaskId)
    | Cycle(ids: seq<TaskId>)
    | InvalidTemplate(task: TaskId, error: TemplateError)
    | SelfOutput(id: TaskId)
    | OutputOfUnknownTask(task: TaskId, source: TaskId)
    | OutputWithoutDependency(task: TaskId, source: TaskId)

  // ----- what a valid workflow is -----

  predicate DistinctIds(definitions: seq<TaskDefinition>) {
    forall i, j :: 0 <= i < j < |definitions| ==> definitions[i].id != definitions[j].id
  }

  predicate Declares(definitions: seq<TaskDefinition>, id: TaskId) {
    exists i :: 0 <= i < |definitions| && definitions[i].id == id
  }

  /** Each dependency names another declared task. */
  predicate KnownDependencies(definitions: seq<TaskDefinition>) {
    forall i :: 0 <= i < |definitions| ==> KnowsDependencies(definitions, definitions[i])
  }

  predicate KnowsDependencies(definitions: seq<TaskDefinition>, definition: TaskDefinition) {
    forall id :: id in definition.dependsOn ==> Declares(definitions, id) && id != definition.id
  }

  /** Tasks can be ranked so that each stands above the tasks it depends on. */
  ghost predicate Orderable(definitions: seq<TaskDefinition>) {
    exists rank: seq<nat> {:trigger Ranked(definitions, rank)} :: Ranked(definitions, rank)
  }

  ghost predicate Ranked(definitions: seq<TaskDefinition>, rank: seq<nat>) {
    && |rank| == |definitions|
    && forall i, j | 0 <= i < |definitions| && 0 <= j < |definitions| && definitions[j].id in definitions[i].dependsOn ::
         rank[j] < rank[i]
  }

  /** Every text parses, and reads only tasks in `allowed`. */
  predicate ReadsOnly(texts: seq<string>, allowed: seq<TaskId>) {
    forall text :: text in texts ==>
      Segments(text).Ok? && forall reference :: reference in References(Segments(text).value) ==> reference.task in allowed
  }

  /** What a manifest must say to load, in its own terms. */
  ghost predicate Accepted(definitions: seq<TaskDefinition>) {
    && definitions != []
    && DistinctIds(definitions)
    && KnownDependencies(definitions)
    && Orderable(definitions)
    && forall i :: 0 <= i < |definitions| ==> ReadsOnly(definitions[i].request.Texts(), definitions[i].dependsOn)
  }

  // ----- what is wrong with a workflow -----

  /** Some text of the definition refers to the output of the task. */
  predicate ReadsOutputOf(definition: TaskDefinition, source: TaskId) {
    exists text :: text in definition.request.Texts() && Segments(text).Ok? && ReadsIn(Segments(text).value, source)
  }

  predicate ReadsIn(segments: seq<Segment>, source: TaskId) {
    exists reference :: reference in References(segments) && reference.task == source
  }

  /** What the error says of one definition is true of it. */
  predicate BlamesOne(definitions: seq<TaskDefinition>, definition: TaskDefinition, error: WorkflowError) {
    match error
    case UnknownDependency(task, dependency) =>
      definition.id == task && dependency in definition.dependsOn && !Declares(definitions, dependency)
    case SelfDependency(id) => definition.id == id && id in definition.dependsOn
    case InvalidTemplate(task, fault) =>
      definition.id == task && exists text :: text in definition.request.Texts() && Segments(text) == Err(fault)
    case SelfOutput(id) => definition.id == id && ReadsOutputOf(definition, id)
    case OutputOfUnknownTask(task, source) =>
      definition.id == task && ReadsOutputOf(definition, source) && !Declares(definitions, source)
    case OutputWithoutDependency(task, source) =>
      definition.id == task && ReadsOutputOf(definition, source) && Declares(definitions, source) && source != task
      && source !in definition.dependsOn
    case _ => false
  }

  /** What the error says of the definitions is true of them. */
  predicate Blames(definitions: seq<TaskDefinition>, error: WorkflowError) {
    match error
    case NoTasks => definitions == []
    case DuplicateTask(id) => exists i, j :: 0 <= i < j < |definitions| && definitions[i].id == definitions[j].id == id
    case Cycle(ids) => IdCycle(definitions, ids)
    case _ => exists i :: 0 <= i < |definitions| && BlamesOne(definitions, definitions[i], error)
  }

  // ----- the index of IDs -----

  type Indexes = map<TaskId, nat>

  predicate IndexesOf(definitions: seq<TaskDefinition>, indexes: Indexes) {
    && (forall i :: 0 <= i < |definitions| ==> definitions[i].id in indexes && indexes[definitions[i].id] == i)
    && (forall id :: id in indexes ==> indexes[id] < |definitions| && definitions[indexes[id]].id == id)
  }

  method TaskIndexes(definitions: seq<TaskDefinition>) returns (r: Result<Indexes, WorkflowError>)
    ensures r.Ok? <==> DistinctIds(definitions)
    ensures r.Ok? ==> IndexesOf(definitions, r.value)
    ensures r.Err? ==> exists i, j :: 0 <= i < j < |definitions| && definitions[i].id == definitions[j].id
                                      && r.error == DuplicateTask(definitions[j].id) && DistinctIds(definitions[..j])
  {
    var indexes: Indexes := map[];
    for position := 0 to |definitions|
      invariant DistinctIds(definitions[..position]) && IndexesOf(definitions[..position], indexes)
    {
      var id := definitions[position].id;
      if id in indexes {
        assert definitions[indexes[id]].id == id;
        return Err(DuplicateTask(id));
      }
      indexes := indexes[id := position];
      assert definitions[..position + 1] == definitions[..position] + [definitions[position]];
    }
    assert definitions[..|definitions|] == definitions;
    r := Ok(indexes);
  }

  // ----- dependencies -----

  function DependencyFault(definition: TaskDefinition, index: nat, indexes: Indexes, dependency: TaskId): Option<WorkflowError> {
    if dependency !in indexes then Some(UnknownDependency(definition.id, dependency))
    else if indexes[dependency] == index then Some(SelfDependency(definition.id))
    else None
  }

  /** `dependencies` are the positions of the IDs the definition names, in order. */
  predicate Resolves(definition: TaskDefinition, indexes: Indexes, dependencies: seq<nat>) {
    |dependencies| == |definition.dependsOn| &&
    forall k :: 0 <= k < |dependencies| ==>
      definition.dependsOn[k] in indexes && dependencies[k] == indexes[definition.dependsOn[k]]
  }

  /** The first `k` dependencies are known, of other tasks, and at the positions listed. */
  predicate KnownUpTo(definition: TaskDefinition, index: nat, indexes: Indexes, dependencies: seq<nat>, k: nat) {
    && |dependencies| == k <= |definition.dependsOn|
    && forall m :: 0 <= m < k ==>
         definition.dependsOn[m] in indexes && indexes[definition.dependsOn[m]] != index && dependencies[m] == indexes[definition.dependsOn[m]]
  }

  /** The `k`-th dependency is the first with a fault. */
  ghost predicate FirstFaultAt(definition: TaskDefinition, index: nat, indexes: Indexes, error: WorkflowError, k: nat) {
    && k < |definition.dependsOn| && DependencyFault(definition, index, indexes, definition.dependsOn[k]) == Some(error)
    && forall m :: 0 <= m < k ==> DependencyFault(definition, index, indexes, definition.dependsOn[m]).None?
  }

  lemma KnownHaveNoFault(definition: TaskDefinition, index: nat, indexes: Indexes, dependencies: seq<nat>, k: nat)
    requires KnownUpTo(definition, index, indexes, dependencies, k)
    ensures forall m :: 0 <= m < k ==> DependencyFault(definition, index, indexes, definition.dependsOn[m]).None?
  {
  }

  lemma AllKnown(definition: TaskDefinition, index: nat, indexes: Indexes, dependencies: seq<nat>)
    requires KnownUpTo(definition, index, indexes, dependencies, |definition.dependsOn|)
    ensures forall id :: id in definition.dependsOn ==> id in indexes && indexes[id] != index
    ensures Resolves(definition, indexes, dependencies)
  {
    forall id | id in definition.dependsOn ensures id in indexes && indexes[id] != index {
      var m :| 0 <= m < |definition.dependsOn| && definition.dependsOn[m] == id;
      assert definition.dependsOn[m] in indexes && indexes[definition.dependsOn[m]] != index;
    }
  }

  lemma FaultIsUnknown(definition: TaskDefinition, index: nat, indexes: Indexes, k: nat)
    requires k < |definition.dependsOn|
    requires definition.dependsOn[k] !in indexes || indexes[definition.dependsOn[k]] == index
    ensures !forall id :: id in definition.dependsOn ==> id in indexes && indexes[id] != index
  {
    var id := definition.dependsOn[k];
    assert id in definition.dependsOn;
  }

  method ResolveDependencies(definition: TaskDefinition, index: nat, indexes: Indexes)
    returns (r: Result<seq<nat>, WorkflowError>)
    ensures r.Ok? <==> forall id :: id in definition.dependsOn ==> id in indexes && indexes[id] != index
    ensures r.Ok? ==> Resolves(definition, indexes, r.value)
    ensures r.Err? ==> exists k :: FirstFaultAt(definition, index, indexes, r.error, k)
    ensures r.Err? ==> r.error.UnknownDependency? || r.error.SelfDependency?
  {
    var dependencies: seq<nat> := [];
    for k := 0 to |definition.dependsOn|
      invariant KnownUpTo(definition, index, indexes, dependencies, k)
    {
      var id := definition.dependsOn[k];
      if id !in indexes {
        KnownHaveNoFault(definition, index, indexes, dependencies, k);
        FaultIsUnknown(definition, index, indexes, k);
        assert FirstFaultAt(definition, index, indexes, UnknownDependency(definition.id, id), k);
        return Err(UnknownDependency(definition.id, id));
      }
      if indexes[id] == index {
        KnownHaveNoFault(definition, index, indexes, dependencies, k);
        FaultIsUnknown(definition, index, indexes, k);
        assert FirstFaultAt(definition, index, indexes, SelfDependency(definition.id), k);
        return Err(SelfDependency(definition.id));
      }
      dependencies := dependencies + [indexes[id]];
    }
    AllKnown(definition, index, indexes, dependencies);
    r := Ok(dependencies);
  }

  /** The error is the first fault of the first definition with an unknown or own dependency. */
  ghost predicate IsFirstUnknown(definitions: seq<TaskDefinition>, indexes: Indexes, error: WorkflowError, i: nat)
    requires i < |definitions|
  {
    && (forall j :: 0 <= j < i ==> KnowsDependencies(definitions, definitions[j]))
    && exists k :: FirstFaultAt(definitions[i], i, indexes, error, k)
  }

  /** Resolves each definition in turn. */
  method ResolveAllDependencies(definitions: seq<TaskDefinition>, indexes: Indexes)
    returns (r: Result<Graph, WorkflowError>)
    requires IndexesOf(definitions, indexes)
    ensures r.Ok? <==> KnownDependencies(definitions)
    ensures r.Ok? ==> |r.value| == |definitions|
                      && forall i :: 0 <= i < |definitions| ==> Resolves(definitions[i], indexes, r.value[i])
    ensures r.Err? ==> r.error.UnknownDependency? || r.error.SelfDependency?
    ensures r.Err? ==> exists i :: 0 <= i < |definitions| && IsFirstUnknown(definitions, indexes, r.error, i)
  {
    var graph: Graph := [];
    for i := 0 to |definitions|
      invariant |graph| == i
      invariant forall j :: 0 <= j < i ==> Resolves(definitions[j], indexes, graph[j])
      invariant forall j :: 0 <= j < i ==> KnowsDependencies(definitions, definitions[j])
    {
      var dependencies := ResolveDependencies(definitions[i], i, indexes);
      KnownWhenIndexed(definitions, indexes, i);
      if dependencies.Err? {
        assert IsFirstUnknown(definitions, indexes, dependencies.error, i);
        return Err(dependencies.error);
      }
      graph := graph + [dependencies.value];
    }
    r := Ok(graph);
  }

  /** Knowing a dependency and having its position are the same. */
  lemma KnownWhenIndexed(definitions: seq<TaskDefinition>, indexes: Indexes, i: nat)
    requires IndexesOf(definitions, indexes) && i < |definitions|
    ensures KnowsDependencies(definitions, definitions[i]) <==>
            forall id :: id in definitions[i].dependsOn ==> id in indexes && indexes[id] != i
  {
    forall id | id in definitions[i].dependsOn
      ensures Declares(definitions, id) && id != definitions[i].id <==> id in indexes && indexes[id] != i
    {
      if Declares(definitions, id) {
        var j :| 0 <= j < |definitions| && definitions[j].id == id;
        assert indexes[definitions[j].id] == j;
      }
      if id in indexes {
        assert definitions[indexes[id]].id == id;
      }
    }
  }

  // ----- output sources -----

  predicate IsReadError(error: WorkflowError) {
    error.InvalidTemplate? || error.SelfOutput? || error.OutputOfUnknownTask? || error.OutputWithoutDependency?
  }

  function ReferenceFault(definition: TaskDefinition, dependencies: seq<nat>, indexes: Indexes, source: TaskId): (r: Option<WorkflowError>)
    ensures r.Some? ==> IsReadError(r.value)
  {
    if source == definition.id then Some(SelfOutput(definition.id))
    else if source !in indexes then Some(OutputOfUnknownTask(definition.id, source))
    else if indexes[source] !in dependencies then Some(OutputWithoutDependency(definition.id, source))
    else None
  }

  /** The first fault of the references, in the order the text reads them. */
  function FirstReferenceFault(definition: TaskDefinition, dependencies: seq<nat>, indexes: Indexes, references: seq<OutputReference>): (r: Option<WorkflowError>)
    ensures r.Some? ==> IsReadError(r.value)
    ensures r.None? <==> forall reference :: reference in references ==>
                           ReferenceFault(definition, dependencies, indexes, reference.task).None?
  {
    if references == [] then None
    else
      var first := ReferenceFault(definition, dependencies, indexes, references[0].task);
      if first.Some? then first else FirstReferenceFault(definition, dependencies, indexes, references[1..])
  }

  function TextFault(definition: TaskDefinition, dependencies: seq<nat>, indexes: Indexes, text: string): (r: Option<WorkflowError>)
    ensures r.Some? ==> IsReadError(r.value)
  {
    match Segments(text)
    case Err(error) => Some(InvalidTemplate(definition.id, error))
    case Ok(segments) => FirstReferenceFault(definition, dependencies, indexes, References(segments))
  }

  /** The first fault of the texts of a request, in order. */
  function FirstTextFault(definition: TaskDefinition, dependencies: seq<nat>, indexes: Indexes, texts: seq<string>): (r: Option<WorkflowError>)
    ensures r.Some? ==> IsReadError(r.value)
    ensures r.None? <==> forall text :: text in texts ==> TextFault(definition, dependencies, indexes, text).None?
  {
    if texts == [] then None
    else
      var first := TextFault(definition, dependencies, indexes, texts[0]);
      if first.Some? then first else FirstTextFault(definition, dependencies, indexes, texts[1..])
  }

  /** The positions the references name. */
  function SourceSet(references: seq<OutputReference>, indexes: Indexes): set<nat> {
    set reference | reference in references && reference.task in indexes :: indexes[reference.task]
  }

  /** The positions one text reads. */
  function TextSources(text: string, indexes: Indexes): set<nat> {
    match Segments(text)
    case Err(_) => {}
    case Ok(segments) => SourceSet(References(segments), indexes)
  }

  /** The positions the texts read. */
  function ReadSet(texts: seq<string>, indexes: Indexes): set<nat> {
    if texts == [] then {} else ReadSet(texts[..|texts| - 1], indexes) + TextSources(texts[|texts| - 1], indexes)
  }

  ghost predicate Holds(sources: seq<nat>, positions: set<nat>) {
    Distinct(sources) && forall index :: index in sources <==> index in positions
  }

  /** Adds the positions one text reads to those already read. */
  method AddSources(definition: TaskDefinition, dependencies: seq<nat>, indexes: Indexes, references: seq<OutputReference>, read: seq<nat>)
    returns (r: Result<seq<nat>, WorkflowError>)
    requires Distinct(read)
    ensures var fault := FirstReferenceFault(definition, dependencies, indexes, references);
            if fault.Some? then r == Err(fault.value)
            else r.Ok? && Distinct(r.value)
                 && forall index :: index in r.value <==> index in read || index in SourceSet(references, indexes)
  {
    var sources := read;
    for j := 0 to |references|
      invariant FirstReferenceFault(definition, dependencies, indexes, references)
             == FirstReferenceFault(definition, dependencies, indexes, references[j..])
      invariant Distinct(sources)
      invariant forall index :: index in sources <==> index in read || index in SourceSet(references[..j], indexes)
    {
      assert references[j..][1..] == references[j + 1..] && references[j..][0] == references[j];
      assert references[..j + 1] == references[..j] + [references[j]];
      var source := references[j].task;
      if source == definition.id {
        return Err(SelfOutput(definition.id));
      }
      if source !in indexes {
        return Err(OutputOfUnknownTask(definition.id, source));
      }
      var index := indexes[source];
      if index !in dependencies {
        return Err(OutputWithoutDependency(definition.id, source));
      }
      assert SourceSet(references[..j + 1], indexes) == SourceSet(references[..j], indexes) + {index};
      if index !in sources {
        sources := sources + [index];
      }
    }
    assert references[..|references|] == references;
    r := Ok(sources);
  }

  /** Adds the positions the references of one text name, or gives its first fault. */
  method AddText(definition: TaskDefinition, dependencies: seq<nat>, indexes: Indexes, text: string, sources: seq<nat>, ghost read: set<nat>)
    returns (r: Result<seq<nat>, WorkflowError>)
    requires Holds(sources, read)
    ensures var fault := TextFault(definition, dependencies, indexes, text);
            if fault.Some? then r == Err(fault.value) else r.Ok? && Holds(r.value, read + TextSources(text, indexes))
  {
    var parsed := Parse(text);
    if parsed.Err? {
      return Err(InvalidTemplate(definition.id, parsed.error));
    }
    r := AddSources(definition, dependencies, indexes, References(parsed.value), sources);
  }

  lemma NextFault(definition: TaskDefinition, dependencies: seq<nat>, indexes: Indexes, texts: seq<string>, i: nat)
    requires i < |texts|
    ensures FirstTextFault(definition, dependencies, indexes, texts[i..]) ==
            if TextFault(definition, dependencies, indexes, texts[i]).Some? then TextFault(definition, dependencies, indexes, texts[i])
            else FirstTextFault(definition, dependencies, indexes, texts[i + 1..])
    ensures ReadSet(texts[..i + 1], indexes) == ReadSet(texts[..i], indexes) + TextSources(texts[i], indexes)
  {
    assert texts[i..][1..] == texts[i + 1..] && texts[i..][0] == texts[i];
    assert texts[..i + 1][..i] == texts[..i];
  }

  /** Collects what the request reads, text by text, without repeats. */
  method ResolveOutputSources(definition: TaskDefinition, dependencies: seq<nat>, indexes: Indexes)
    returns (r: Result<seq<nat>, WorkflowError>)
    ensures var fault := FirstTextFault(definition, dependencies, indexes, definition.request.Texts());
            if fault.Some? then r == Err(fault.value)
            else r.Ok? && Holds(r.value, ReadSet(definition.request.Texts(), indexes))
  {
    var texts := definition.request.Texts();
    var sources: seq<nat> := [];
    assert texts[0..] == texts;
    for i := 0 to |texts|
      invariant FirstTextFault(definition, dependencies, indexes, texts)
             == FirstTextFault(definition, dependencies, indexes, texts[i..])
      invariant Holds(sources, ReadSet(texts[..i], indexes))
    {
      NextFault(definition, dependencies, indexes, texts, i);
      var added := AddText(definition, dependencies, indexes, texts[i], sources, ReadSet(texts[..i], indexes));
      if added.Err? {
        return added;
      }
      sources := added.value;
    }
    assert texts[..|texts|] == texts;
    r := Ok(sources);
  }

  lemma ReferenceIsSource(indexes: Indexes, text: string, reference: OutputReference)
    requires Segments(text).Ok? && reference in References(Segments(text).value) && reference.task in indexes
    ensures indexes[reference.task] in TextSources(text, indexes)
  {
    assert indexes[reference.task] in SourceSet(References(Segments(text).value), indexes);
  }

  lemma {:induction false} TextIsRead(texts: seq<string>, indexes: Indexes, i: nat, source: nat)
    requires i < |texts| && source in TextSources(texts[i], indexes)
    ensures source in ReadSet(texts, indexes)
  {
    if i < |texts| - 1 {
      TextIsRead(texts[..|texts| - 1], indexes, i, source);
    }
  }

  lemma ReferenceIsRead(texts: seq<string>, indexes: Indexes, text: string, reference: OutputReference)
    requires text in texts && Segments(text).Ok? && reference in References(Segments(text).value)
    requires reference.task in indexes
    ensures indexes[reference.task] in ReadSet(texts, indexes)
  {
    var i :| 0 <= i < |texts| && texts[i] == text;
    ReferenceIsSource(indexes, text, reference);
    TextIsRead(texts, indexes, i, indexes[reference.task]);
  }

  // ----- the whole check -----

  function GraphOf(w: Workflow): Graph {
    seq(|w.tasks|, v requires 0 <= v < |w.tasks| => w.tasks[v].dependencies)
  }

  function IndexOf(w: Workflow, id: TaskId): (r: Option<nat>)
    ensures r.Some? ==> r.value < |w.tasks| && w.tasks[r.value].id == id
    ensures r.None? ==> forall v :: 0 <= v < |w.tasks| ==> w.tasks[v].id != id
  {
    FirstWithId(w.tasks, id, 0)
  }

  function FirstWithId(tasks: seq<Task>, id: TaskId, from: nat): (r: Option<nat>)
    requires from <= |tasks|
    ensures r.Some? ==> from <= r.value < |tasks| && tasks[r.value].id == id
                        && forall v :: from <= v < r.value ==> tasks[v].id != id
    ensures r.None? ==> forall v :: from <= v < |tasks| ==> tasks[v].id != id
    decreases |tasks| - from
  {
    if from == |tasks| then None
    else if tasks[from].id == id then Some(from)
    else FirstWithId(tasks, id, from + 1)
  }

  /** The reference names a direct dependency of `task`, which is among its sources. */
  predicate ReadsDependency(w: Workflow, task: Task, reference: OutputReference) {
    match IndexOf(w, reference.task)
    case None => false
    case Some(d) => d in task.dependencies && d in task.sources
  }

  /** What a workflow guarantees to the code that runs it. */
  ghost predicate Valid(w: Workflow) {
    && (forall u, v :: 0 <= u < v < |w.tasks| ==> w.tasks[u].id != w.tasks[v].id)
    && (forall v, d :: 0 <= v < |w.tasks| && d in w.tasks[v].dependencies ==> d < |w.tasks|)
    && Acyclic(GraphOf(w))
    && (forall v :: 0 <= v < |w.tasks| ==> TextsReadDependencies(w, w.tasks[v]))
  }

  predicate TextsReadDependencies(w: Workflow, task: Task) {
    forall text :: text in task.request.Texts() ==>
      Segments(text).Ok? && forall reference :: reference in References(Segments(text).value) ==> ReadsDependency(w, task, reference)
  }

  /** The workflow has the declared tasks, in order. */
  predicate Represents(definitions: seq<TaskDefinition>, w: Workflow) {
    |w.tasks| == |definitions| &&
    forall v :: 0 <= v < |w.tasks| ==>
      && w.tasks[v].id == definitions[v].id && w.tasks[v].request == definitions[v].request
      && |w.tasks[v].dependencies| == |definitions[v].dependsOn|
      && forall k :: 0 <= k < |definitions[v].dependsOn| ==>
           w.tasks[v].dependencies[k] < |definitions| && definitions[w.tasks[v].dependencies[k]].id == definitions[v].dependsOn[k]
  }

  /** A closed chain of declared dependencies, each ID once but for the first. */
  predicate IdCycle(definitions: seq<TaskDefinition>, ids: seq<TaskId>) {
    && |ids| >= 2 && ids[0] == ids[|ids| - 1] && Distinct(ids[1..])
    && forall k :: 0 <= k < |ids| - 1 ==> NamesDependency(definitions, ids[k], ids[k + 1])
  }

  /** Some definition with the ID names the other as a dependency. */
  predicate NamesDependency(definitions: seq<TaskDefinition>, id: TaskId, dependency: TaskId) {
    exists v :: 0 <= v < |definitions| && definitions[v].id == id && dependency in definitions[v].dependsOn
  }

  /** Positions turned back into IDs. */
  function TaskIdsAt(definitions: seq<TaskDefinition>, positions: seq<nat>): (ids: seq<TaskId>)
    requires forall k :: 0 <= k < |positions| ==> positions[k] < |definitions|
    ensures |ids| == |positions| && forall k :: 0 <= k < |ids| ==> ids[k] == definitions[positions[k]].id
  {
    if positions == [] then [] else [definitions[positions[0]].id] + TaskIdsAt(definitions, positions[1..])
  }

  /** Resolves what every task reads; the error is a fault of some task's texts. */
  method BuildTasks(definitions: seq<TaskDefinition>, indexes: Indexes, graph: Graph)
    returns (r: Result<seq<Task>, WorkflowError>)
    requires IndexesOf(definitions, indexes) && ResolvesAll(definitions, indexes, graph)
    ensures r.Ok? ==> |r.value| == |definitions|
                      && forall v :: 0 <= v < |definitions| ==> IsTaskOf(definitions[v], graph[v], indexes, r.value[v])
    ensures r.Err? ==> IsReadError(r.error)
    ensures r.Err? ==> exists v :: 0 <= v < |definitions|
                                   && FirstTextFault(definitions[v], graph[v], indexes, definitions[v].request.Texts()) == Some(r.error)
  {
    var tasks: seq<Task> := [];
    for v := 0 to |definitions|
      invariant |tasks| == v
      invariant forall u :: 0 <= u < v ==> IsTaskOf(definitions[u], graph[u], indexes, tasks[u])
    {
      var sources := ResolveOutputSources(definitions[v], graph[v], indexes);
      if sources.Err? {
        return Err(sources.error);
      }
      tasks := tasks + [Task(definitions[v].id, graph[v], sources.value, definitions[v].request)];
    }
    r := Ok(tasks);
  }

  /** Checks the declarations; accepts exactly the well-formed ones. */
  method TryFrom(definitions: seq<TaskDefinition>) returns (r: Result<Workflow, WorkflowError>)
    ensures r.Ok? <==> Accepted(definitions)
    ensures r.Ok? ==> Represents(definitions, r.value) && Valid(r.value)
    ensures r.Err? ==> Blames(definitions, r.error)
    ensures r == Err(NoTasks) <==> definitions == []
    ensures definitions != [] && !DistinctIds(definitions) ==> r.Err? && r.error.DuplicateTask?
    ensures definitions != [] && DistinctIds(definitions) && !KnownDependencies(definitions) ==>
              r.Err? && (r.error.UnknownDependency? || r.error.SelfDependency?)
    ensures definitions != [] && DistinctIds(definitions) && KnownDependencies(definitions) && !Orderable(definitions) ==>
              r.Err? && r.error.Cycle?
    ensures definitions != [] && DistinctIds(definitions) && KnownDependencies(definitions) && Orderable(definitions) && r.Err? ==>
              IsReadError(r.error)
  {
    if definitions == [] {
      return Err(NoTasks);
    }
    var indexed := TaskIndexes(definitions);
    if indexed.Err? {
      return Err(indexed.error);
    }
    var indexes := indexed.value;
    var resolved := ResolveAllDependencies(definitions, indexes);
    if resolved.Err? {
      DependencyIsBlamed(definitions, indexes, resolved.error);
      return Err(resolved.error);
    }
    var graph := resolved.value;
    var acyclic := CycleSearch.ValidateAcyclic(graph);
    OrderableMeansAcyclic(definitions, indexes, graph);
    if acyclic.Err? {
      CycleInIds(definitions, indexes, graph, acyclic.error);
      return Err(Cycle(TaskIdsAt(definitions, acyclic.error)));
    }
    var tasks := BuildTasks(definitions, indexes, graph);
    if tasks.Err? {
      FaultMeansRefused(definitions, indexes, graph, tasks.error);
      TextIsBlamed(definitions, indexes, graph, tasks.error);
      return Err(tasks.error);
    }
    TasksAreValid(definitions, indexes, graph, Workflow(tasks.value));
    r := Ok(Workflow(tasks.value));
  }

  predicate ResolvesAll(definitions: seq<TaskDefinition>, indexes: Indexes, graph: Graph) {
    |graph| == |definitions| && forall i :: 0 <= i < |definitions| ==> Resolves(definitions[i], indexes, graph[i])
  }

  ghost predicate IsTaskOf(definition: TaskDefinition, dependencies: seq<nat>, indexes: Indexes, task: Task) {
    && task.id == definition.id && task.dependencies == dependencies && task.request == definition.request
    && FirstTextFault(definition, dependencies, indexes, definition.request.Texts()).None?
    && Holds(task.sources, ReadSet(definition.request.Texts(), indexes))
  }

  lemma EdgeIsDependency(definitions: seq<TaskDefinition>, indexes: Indexes, graph: Graph, i: nat, j: nat)
    requires IndexesOf(definitions, indexes) && ResolvesAll(definitions, indexes, graph)
    requires i < |definitions| && j < |definitions|
    ensures j in graph[i] <==> definitions[j].id in definitions[i].dependsOn
  {
    assert Resolves(definitions[i], indexes, graph[i]);
    if definitions[j].id in definitions[i].dependsOn {
      var k :| 0 <= k < |definitions[i].dependsOn| && definitions[i].dependsOn[k] == definitions[j].id;
      assert graph[i][k] == j;
    }
    if j in graph[i] {
      var k :| 0 <= k < |graph[i]| && graph[i][k] == j;
      assert definitions[i].dependsOn[k] == definitions[j].id;
    }
  }

  lemma OrderableMeansAcyclic(definitions: seq<TaskDefinition>, indexes: Indexes, graph: Graph)
    requires IndexesOf(definitions, indexes) && ResolvesAll(definitions, indexes, graph)
    ensures Orderable(definitions) <==> Acyclic(graph)
  {
    forall i: nat, j: nat | i < |definitions| && j < |definitions|
      ensures j in graph[i] <==> definitions[j].id in definitions[i].dependsOn
    {
      EdgeIsDependency(definitions, indexes, graph, i, j);
    }
    if Orderable(definitions) {
      var rank :| Ranked(definitions, rank);
      assert IsRank(graph, rank);
    }
    if Acyclic(graph) {
      var rank :| IsRank(graph, rank);
      forall i, j | 0 <= i < |definitions| && 0 <= j < |definitions| && definitions[j].id in definitions[i].dependsOn
        ensures rank[j] < rank[i]
      {
        assert Edge(graph, i, j);
      }
      assert Ranked(definitions, rank);
    }
  }

  lemma CycleInIds(definitions: seq<TaskDefinition>, indexes: Indexes, graph: Graph, cycle: seq<nat>)
    requires IndexesOf(definitions, indexes) && ResolvesAll(definitions, indexes, graph) && IsCycle(graph, cycle)
    ensures forall v :: v in cycle ==> v < |definitions|
    ensures IdCycle(definitions, TaskIdsAt(definitions, cycle))
  {
    forall k | 0 <= k < |cycle| - 1
      ensures NamesDependency(definitions, definitions[cycle[k]].id, definitions[cycle[k + 1]].id)
    {
      EdgeNamesDependency(definitions, indexes, graph, cycle[k], cycle[k + 1]);
    }
    OtherPositionsOtherIds(definitions, indexes, cycle[1..]);
    PathInIds(definitions, cycle);
  }

  lemma PathInIds(definitions: seq<TaskDefinition>, cycle: seq<nat>)
    requires |cycle| >= 2 && cycle[0] == cycle[|cycle| - 1] && forall k :: 0 <= k < |cycle| ==> cycle[k] < |definitions|
    requires forall k :: 0 <= k < |cycle| - 1 ==> NamesDependency(definitions, definitions[cycle[k]].id, definitions[cycle[k + 1]].id)
    requires Distinct(TaskIdsAt(definitions, cycle[1..]))
    ensures IdCycle(definitions, TaskIdsAt(definitions, cycle))
  {
    assert TaskIdsAt(definitions, cycle)[1..] == TaskIdsAt(definitions, cycle[1..]);
  }

  lemma OtherPositionsOtherIds(definitions: seq<TaskDefinition>, indexes: Indexes, positions: seq<nat>)
    requires IndexesOf(definitions, indexes) && Distinct(positions)
    requires forall k :: 0 <= k < |positions| ==> positions[k] < |definitions|
    ensures Distinct(TaskIdsAt(definitions, positions))
  {
    forall i, j | 0 <= i < j < |positions| ensures definitions[positions[i]].id != definitions[positions[j]].id {
      OtherPositionOtherId(definitions, indexes, positions[i], positions[j]);
    }
  }

  lemma EdgeNamesDependency(definitions: seq<TaskDefinition>, indexes: Indexes, graph: Graph, i: nat, j: nat)
    requires IndexesOf(definitions, indexes) && ResolvesAll(definitions, indexes, graph)
    requires i < |definitions| && j < |definitions| && j in graph[i]
    ensures NamesDependency(definitions, definitions[i].id, definitions[j].id)
  {
    EdgeIsDependency(definitions, indexes, graph, i, j);
  }

  lemma OtherPositionOtherId(definitions: seq<TaskDefinition>, indexes: Indexes, i: nat, j: nat)
    requires IndexesOf(definitions, indexes) && i < |definitions| && j < |definitions| && i != j
    ensures definitions[i].id != definitions[j].id
  {
    assert indexes[definitions[i].id] == i && indexes[definitions[j].id] == j;
  }

  lemma SourceFault(definitions: seq<TaskDefinition>, indexes: Indexes, graph: Graph, v: nat, source: TaskId)
    requires IndexesOf(definitions, indexes) && ResolvesAll(definitions, indexes, graph) && KnownDependencies(definitions)
    requires v < |definitions|
    ensures ReferenceFault(definitions[v], graph[v], indexes, source).None? <==> source in definitions[v].dependsOn
  {
    if source in indexes {
      EdgeIsDependency(definitions, indexes, graph, v, indexes[source]);
    }
    if source in definitions[v].dependsOn {
      assert Declares(definitions, source) && source != definitions[v].id;
    }
  }

  /** The texts have no fault exactly when they read only declared dependencies. */
  lemma NoTextFault(definitions: seq<TaskDefinition>, indexes: Indexes, graph: Graph, v: nat)
    requires IndexesOf(definitions, indexes) && ResolvesAll(definitions, indexes, graph) && KnownDependencies(definitions)
    requires v < |definitions|
    ensures FirstTextFault(definitions[v], graph[v], indexes, definitions[v].request.Texts()).None?
       <==> ReadsOnly(definitions[v].request.Texts(), definitions[v].dependsOn)
  {
    forall source: TaskId
      ensures ReferenceFault(definitions[v], graph[v], indexes, source).None? <==> source in definitions[v].dependsOn
    {
      SourceFault(definitions, indexes, graph, v, source);
    }
    TextFaults(definitions[v], graph[v], indexes, definitions[v].request.Texts());
  }

  lemma TextFaults(definition: TaskDefinition, dependencies: seq<nat>, indexes: Indexes, texts: seq<string>)
    requires forall source: TaskId ::
               ReferenceFault(definition, dependencies, indexes, source).None? <==> source in definition.dependsOn
    ensures FirstTextFault(definition, dependencies, indexes, texts).None? <==> ReadsOnly(texts, definition.dependsOn)
  {
    forall text
      ensures TextFault(definition, dependencies, indexes, text).None? <==>
              Segments(text).Ok? && forall reference :: reference in References(Segments(text).value) ==> reference.task in definition.dependsOn
    {
    }
  }

  lemma FaultMeansRefused(definitions: seq<TaskDefinition>, indexes: Indexes, graph: Graph, error: WorkflowError)
    requires IndexesOf(definitions, indexes) && ResolvesAll(definitions, indexes, graph) && KnownDependencies(definitions)
    requires exists v :: 0 <= v < |definitions|
                         && FirstTextFault(definitions[v], graph[v], indexes, definitions[v].request.Texts()) == Some(error)
    ensures !Accepted(definitions)
  {
    var v :| 0 <= v < |definitions|
             && FirstTextFault(definitions[v], graph[v], indexes, definitions[v].request.Texts()) == Some(error);
    NoTextFault(definitions, indexes, graph, v);
  }

  lemma IndexedIsDeclared(definitions: seq<TaskDefinition>, indexes: Indexes, id: TaskId)
    requires IndexesOf(definitions, indexes)
    ensures Declares(definitions, id) <==> id in indexes
  {
    if Declares(definitions, id) {
      var i :| 0 <= i < |definitions| && definitions[i].id == id;
    }
  }

  lemma DependencyIsBlamed(definitions: seq<TaskDefinition>, indexes: Indexes, error: WorkflowError)
    requires IndexesOf(definitions, indexes)
    requires exists i :: 0 <= i < |definitions| && IsFirstUnknown(definitions, indexes, error, i)
    ensures Blames(definitions, error)
  {
    var i :| 0 <= i < |definitions| && IsFirstUnknown(definitions, indexes, error, i);
    var k: nat :| FirstFaultAt(definitions[i], i, indexes, error, k);
    var dependency := definitions[i].dependsOn[k];
    IndexedIsDeclared(definitions, indexes, dependency);
    assert dependency in indexes ==> definitions[indexes[dependency]].id == dependency;
    assert BlamesOne(definitions, definitions[i], error);
  }

  /** A fault of references is the fault of one of them. */
  lemma {:induction false} FaultIsOfReference(definition: TaskDefinition, dependencies: seq<nat>, indexes: Indexes, references: seq<OutputReference>)
    returns (reference: OutputReference)
    requires FirstReferenceFault(definition, dependencies, indexes, references).Some?
    ensures reference in references
    ensures ReferenceFault(definition, dependencies, indexes, reference.task) == FirstReferenceFault(definition, dependencies, indexes, references)
  {
    if ReferenceFault(definition, dependencies, indexes, references[0].task).Some? {
      reference := references[0];
    } else {
      reference := FaultIsOfReference(definition, dependencies, indexes, references[1..]);
    }
  }

  lemma {:induction false} FaultIsOfText(definition: TaskDefinition, dependencies: seq<nat>, indexes: Indexes, texts: seq<string>)
    returns (text: string)
    requires FirstTextFault(definition, dependencies, indexes, texts).Some?
    ensures text in texts
    ensures TextFault(definition, dependencies, indexes, text) == FirstTextFault(definition, dependencies, indexes, texts)
  {
    if TextFault(definition, dependencies, indexes, texts[0]).Some? {
      text := texts[0];
    } else {
      text := FaultIsOfText(definition, dependencies, indexes, texts[1..]);
    }
  }

  lemma ReferenceIsBlamed(definitions: seq<TaskDefinition>, indexes: Indexes, graph: Graph, v: nat, source: TaskId)
    requires IndexesOf(definitions, indexes) && ResolvesAll(definitions, indexes, graph) && KnownDependencies(definitions)
    requires v < |definitions| && ReadsOutputOf(definitions[v], source)
    requires ReferenceFault(definitions[v], graph[v], indexes, source).Some?
    ensures BlamesOne(definitions, definitions[v], ReferenceFault(definitions[v], graph[v], indexes, source).value)
  {
    IndexedIsDeclared(definitions, indexes, source);
    SourceFault(definitions, indexes, graph, v, source);
  }

  lemma TextIsBlamed(definitions: seq<TaskDefinition>, indexes: Indexes, graph: Graph, error: WorkflowError)
    requires IndexesOf(definitions, indexes) && ResolvesAll(definitions, indexes, graph) && KnownDependencies(definitions)
    requires exists v :: 0 <= v < |definitions|
                         && FirstTextFault(definitions[v], graph[v], indexes, definitions[v].request.Texts()) == Some(error)
    ensures Blames(definitions, error)
  {
    var v :| 0 <= v < |definitions|
             && FirstTextFault(definitions[v], graph[v], indexes, definitions[v].request.Texts()) == Some(error);
    var text := FaultIsOfText(definitions[v], graph[v], indexes, definitions[v].request.Texts());
    if Segments(text).Ok? {
      var references := References(Segments(text).value);
      var reference := FaultIsOfReference(definitions[v], graph[v], indexes, references);
      assert ReadsIn(Segments(text).value, reference.task);
      ReferenceIsBlamed(definitions, indexes, graph, v, reference.task);
    }
    assert BlamesOne(definitions, definitions[v], error);
  }

  lemma TasksAreValid(definitions: seq<TaskDefinition>, indexes: Indexes, graph: Graph, w: Workflow)
    requires IndexesOf(definitions, indexes) && ResolvesAll(definitions, indexes, graph)
    requires KnownDependencies(definitions) && Acyclic(graph)
    requires |w.tasks| == |definitions|
    requires forall v :: 0 <= v < |definitions| ==> IsTaskOf(definitions[v], graph[v], indexes, w.tasks[v])
    ensures Valid(w) && Represents(definitions, w)
    ensures forall v :: 0 <= v < |definitions| ==> ReadsOnly(definitions[v].request.Texts(), definitions[v].dependsOn)
  {
    assert GraphOf(w) == graph;
    forall v | 0 <= v < |definitions|
      ensures ReadsOnly(definitions[v].request.Texts(), definitions[v].dependsOn)
      ensures TextsReadDependencies(w, w.tasks[v])
    {
      NoTextFault(definitions, indexes, graph, v);
      TextsAreSources(definitions, indexes, graph, w, v);
    }
    forall v, k | 0 <= v < |definitions| && 0 <= k < |definitions[v].dependsOn|
      ensures graph[v][k] < |definitions| && definitions[graph[v][k]].id == definitions[v].dependsOn[k]
    {
      assert Resolves(definitions[v], indexes, graph[v]);
    }
    forall v, d | 0 <= v < |w.tasks| && d in w.tasks[v].dependencies ensures d < |w.tasks| {
      var k :| 0 <= k < |graph[v]| && graph[v][k] == d;
    }
    forall u, v | 0 <= u < v < |w.tasks| ensures w.tasks[u].id != w.tasks[v].id {
      assert indexes[definitions[u].id] == u && indexes[definitions[v].id] == v;
    }
  }

  lemma TextsAreSources(definitions: seq<TaskDefinition>, indexes: Indexes, graph: Graph, w: Workflow, v: nat)
    requires IndexesOf(definitions, indexes) && ResolvesAll(definitions, indexes, graph)
    requires |w.tasks| == |definitions| && v < |definitions|
    requires forall u :: 0 <= u < |definitions| ==> IsTaskOf(definitions[u], graph[u], indexes, w.tasks[u])
    ensures TextsReadDependencies(w, w.tasks[v])
  {
    var definition := definitions[v];
    forall text, reference | text in definition.request.Texts() && Segments(text).Ok? && reference in References(Segments(text).value)
      ensures ReadsDependency(w, w.tasks[v], reference)
    {
      assert TextFault(definition, graph[v], indexes, text).None?;
      assert ReferenceFault(definition, graph[v], indexes, reference.task).None?;
      var d := indexes[reference.task];
      assert w.tasks[d].id == definitions[d].id == reference.task;
      var found := IndexOf(w, reference.task).value;
      assert definitions[found].id == reference.task;
      ReferenceIsRead(definition.request.Texts(), indexes, text, reference);
    }
    forall text | text in definition.request.Texts() ensures Segments(text).Ok? {
      assert TextFault(definition, graph[v], indexes, text).None?;
    }
  }
}
