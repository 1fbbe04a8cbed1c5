# Beez, verified

A Dafny model of the parts of Beez whose behaviour is easy to get wrong, with proofs of what they promise.

- **Workflows.** Templates are scanned and printed (`Templates`), task graphs are searched for cycles (`CycleSearch`),
  definitions become a workflow (`Workflows`), and a workflow runs in waves (`Runner`). A process is any function from a
  filled request to an output; two reader threads and the wait for each process interleave with all others in any order
  (`Streams`). `Meanings` says recursively what every task should end with, and the wave loop is proved against it.
- **The schedule daemon.** `Jobs` says when a job is due, `DaemonSteps` what each event does to the daemon, and `Daemons`
  is the object that does it in place. `DaemonStarts` says what each event does to a job, and what starts a run.
  `DaemonSafety`, `DaemonFires` and `DaemonRuns` prove what holds in every state of every history of ticks, commands,
  ends, re-reads and restarts, with the clock free to jump. `DaemonWitnesses` holds histories that show where a promise
  ends.
- **Sandbox masks and backends.** `MaskTrees` and `MaskFiles` hold and give back shared mask directories, `MaskProtocol`
  lets any number of runs do so at once. `Mounts` and `Seatbelt` compile one policy to a mount list and a rule list and
  prove what may be written, read, removed, run and reached. `Arguments` and `SeatbeltProfiles` write both out as words
  and as text, and what is read back is what was meant.
- **Cron schedules.** `WeekDays` moves crontab weekdays to Quartz numbers, `CronSchedules` reads an expression and finds
  its next fire, `Offsets` reads and prints UTC offsets.

A module with a class has a function beside each method: the method is proved to reach the state the function gives, and
the lemmas are about the function. Four findings stand out.

- Resuming a job, and reading a manifest again, can leave a ready, idle job's waiting fire behind although there is room.
  `DaemonRuns.ResumeLeavesNoneIdleExactly` and `DaemonRuns.RereadLeavesNoneIdleExactly` say exactly when, and
  `DaemonWitnesses.ResumingCanStrand` and `DaemonWitnesses.RereadingCanStrand` reach such a state with no run left to
  wake the fire.
- A weekday range that ends in 7 loses its meaning, although the documentation says that 7 is Sunday as well:
  `WeekDays.TermKeepsMeaning` says exactly when a term survives, and `WeekDays.WholeWeekBecomesSunday` turns a whole week
  into a Sunday.
- A stopping daemon still starts a run when a job is triggered, and in no other case
  (`DaemonRuns.StoppingStartsOnlyTriggers`, with a history in `DaemonWitnesses.TriggeringStartsWhileStopping`).
- A one-time job at a whole second fires at most once over all restarts (`DaemonFires.OnceFiresOnce`). At any other
  instant it can fire twice, because the state file keeps its last fire to the second
  (`DaemonWitnesses.FractionsCanFireTwice`).

What the model takes for granted stands in predicates. `DaemonSafety.Legal`: ends report runs that exist, a manifest uses no
schedule name twice, re-reads and restarts keep job IDs distinct, and commands given while no daemon runs change only paused
flags of the state file. `Jobs.Advances`: the cron library answers with a later whole second, and `Jobs.IsSteady` with
the first of a fixed set. `CronSchedules.IsFaithful`: the library finds the first match of its fields, and a macro stands
for fields with one second and at most one restricted day field. `Mounts.IsTree`: paths are resolved, so what exists lies
in a directory. `MaskTrees.CanHappen`: no process that holds masks has died without giving them back.

## Model

| member | source | states |
|---|---|---|
| `TaskIds.FromStr` | crates/beez-core/src/task.rs:45-59 | A task ID is accepted exactly when it is one or more ASCII letters, digits and underscores, and is kept as written; an empty ID has its own error, and any other error carries the first character no ID may have. |
| `TaskIds.IdCharactersAreAscii` | crates/beez-core/src/task.rs:49-55 | The characters an ID may have, by their code points. |
| `Templates.Parse` | crates/beez-core/src/template.rs:109-126 | The scanning loop yields exactly the segments of the recursive reading of the text, or its first malformed placeholder. |
| `Templates.Render` | crates/beez-core/src/template.rs:138-153 | The result is the literals as they stand with exactly the looked-up text in the place of each reference; the error is the first reference that has none. |
| `Templates.NextPlaceholder` | crates/beez-core/src/template.rs:168-176 | The next placeholder splits the text into what is before it, itself and what is after it, with no opened placeholder before it; there is none exactly when the text has no closed placeholder. |
| `Templates.ReferenceReadsBack` | crates/beez-core/src/template.rs:178-199 | A printed output reference is spelled with one blank on each side and reads back as the same reference. |
| `Templates.ReplacedIsUnique` | crates/beez-core/src/template.rs:138-153 | No second text has every reference replaced, so the result of rendering is the only one. |
| `Templates.PlaceholderIsReadExactly` | crates/beez-core/src/template.rs:178-199 | A placeholder is read as a reference exactly when it spells `tasks.`, the ID and `.stdout` or `.stderr` between blanks; one that only opens like a reference is an error that quotes it; any other is text. |
| `Templates.RefusedExactly` | crates/beez-core/src/template.rs:109-126 | A text is refused exactly when it holds a malformed placeholder, and the error quotes the first one. |
| `Templates.WhitespaceIsUnicode` | crates/beez-core/src/template.rs:185-189 | The blanks around a reference are the code points with the Unicode property White_Space. |
| `Templates.PrintedParsesBack` | crates/beez-core/src/template.rs:109-199 | Parsing the printed form of any parsed template gives the same segments. |
| `Templates.ParseSpellsText` | crates/beez-core/src/template.rs:109-183 | The segments spell the text they came from: text pieces verbatim, references as a placeholder whose trimmed body names them. |
| `Templates.TextWithoutReferencesIsKept` | crates/beez-core/src/template.rs:138-153 | A text without references renders back unchanged, braces and all. |
| `Templates.PlainSegmentsReadBack` | crates/beez-core/src/template.rs:156-166 | Segments without empty or adjacent text, and without an opening brace pair in text, read back from their print. |
| `CycleSearch.ValidateAcyclic` | crates/beez-core/src/workflow.rs:350-359 | Answers Ok exactly when a topological rank exists, and otherwise returns a simple closed path of real dependency edges with its first task repeated last. |
| `CycleSearch.Search.Visit` | crates/beez-core/src/workflow.rs:361-402 | One visit keeps the trail the chain of tasks being visited, finishes the task and all it reaches, or closes a cycle. |
| `CycleSearch.TrailCloses` | crates/beez-core/src/workflow.rs:373-382 | Meeting a task that is being visited cuts the trail into a closed path of edges. |
| `CycleSearch.FinishedIsRank` | crates/beez-core/src/workflow.rs:350-402 | The order in which tasks finish is a topological rank, so a search that finishes them all proves there is no cycle. |
| `Graphs.CycleExcludesRank` | crates/beez-core/src/workflow.rs:361-402 | A graph with a closed path has no topological rank. |
| `Workflows.TaskIndexes` | crates/beez-core/src/workflow.rs:247-262 | Every ID maps to its position, or the first repeated ID is the error. |
| `Workflows.ResolveDependencies` | crates/beez-core/src/workflow.rs:264-286 | Dependencies resolve to positions; the first unknown or self dependency is the error. |
| `Workflows.ResolveAllDependencies` | crates/beez-core/src/workflow.rs:288-300 | Every definition resolves, or the error is the first fault of the first definition that has one. |
| `Workflows.ResolveOutputSources` | crates/beez-core/src/workflow.rs:305-340 | The sources of a task are exactly the tasks its placeholders name, each once; a placeholder that is malformed, unknown or no direct dependency is refused. |
| `Workflows.OrderableMeansAcyclic` | crates/beez-core/src/workflow.rs:139-172 | A workflow can be ordered by dependencies exactly when its resolved graph has a rank. |
| `Workflows.TryFrom` | crates/beez-core/src/workflow.rs:136-172 | A workflow is accepted exactly when it has tasks, distinct IDs, known dependencies, no cycle, and placeholders that name direct dependencies only; a refusal is the first check that fails, and what its error says of the definitions is true of them: repeated ID, unknown or own dependency, cycle, malformed text, or output that may not be read. |
| `Workflows.TasksAreValid` | crates/beez-core/src/workflow.rs:305-340 | Every placeholder of an accepted workflow names a direct dependency of its task. |
| `Executions.WorkflowExecution.Ready` | crates/beez-core/src/workflow.rs:184-190 | Exactly the pending tasks whose dependencies all succeeded, each once and in order. |
| `Executions.WorkflowExecution.Start` | crates/beez-core/src/workflow.rs:192-200 | Starts a ready task and changes nothing otherwise. |
| `Executions.WorkflowExecution.Complete` | crates/beez-core/src/workflow.rs:202-217 | Ends a running task with success or failure and changes nothing otherwise. |
| `Executions.WorkflowExecution.PendingTasks` | crates/beez-core/src/workflow.rs:226-234 | Exactly the tasks that have not started, each once and in order. |
| `Executions.Confluence` | crates/beez-core/src/workflow.rs:181-245 | Any two maximal sequences of starts and completions with the same successes end in the same statuses. |
| `Executions.BlockedExactlyBehindFailures` | crates/beez-core/src/workflow.rs:181-245 | In the end a task is pending exactly when a dependency path leads from it to a failed task. |
| `Executions.RunsEnd` | crates/beez-core/src/workflow.rs:192-217 | No sequence of starts and completions is longer than twice the number of tasks. |
| `Streams.Forward` | crates/beez-process/src/runner.rs:160-170 | The lines read from a pipe join to exactly the bytes it delivered, each but the last ending at its newline. |
| `Streams.AllDelivered` | crates/beez-process/src/runner.rs:160-170 | A pipe that does not break delivers every byte. |
| `Streams.WholeLinesDelivered` | crates/beez-process/src/runner.rs:160-170 | A broken pipe delivers whole lines only. |
| `Streams.MoveKeepsTelling` | crates/beez-process/src/runner.rs:120-157 | Whatever order the two readers and the wait take, a started task has told lines whose join per stream is what was captured so far, then at most one end, which agrees with the process. |
| `Meanings.FillFromSources` | crates/beez-runner/src/runner.rs:170-185 | Filling the texts of a valid task succeeds and depends only on the outputs of the tasks it reads. |
| `Meanings.LookupIsExact` | crates/beez-runner/src/runner.rs:174-196 | Looking a reference up gives the decoded stream it names of the task it names, without the carriage returns and line feeds at its end, and nothing else. |
| `Meanings.FillIsExact` | crates/beez-runner/src/runner.rs:170-185 | Filling a request replaces the references of its prompt or its arguments and keeps everything else. |
| `Meanings.ExecutesFilledRequest` | crates/beez-runner/src/runner.rs:136-143 | The process a task runs is that of its own request, each reference in it replaced by what a dependency printed. |
| `Meanings.SucceedsExactly` | crates/beez-runner/src/runner.rs:240-245 | A task succeeds exactly when its process exits zero: not when a signal ended it, and not when it could not be executed. |
| `Meanings.RunsExactlyBehindZeros` | crates/beez-runner/src/runner.rs:129-135 | A task runs exactly when the process of each of its dependencies ran and exited zero. |
| `Meanings.OutcomeIsExact` | crates/beez-process/src/runner.rs:120-157 | An execution error is told as itself; a process that ran is told with its code and every byte of an unbroken stream. |
| `Meanings.MeaningOf` | crates/beez-runner/src/runner.rs:170-203 | An unblocked task means the process result on its text filled from its dependencies' outputs. |
| `Meanings.BlockedMeansNone` | crates/beez-runner/src/runner.rs:205-224 | A task has no result exactly when some dependency did not exit with zero. |
| `Meanings.DeepestPath` | crates/beez-runner/src/runner.rs:124-166 | Some dependency path is as long as the depth of its task. |
| `Meanings.NoDeeperPath` | crates/beez-runner/src/runner.rs:124-166 | No dependency path is longer than the depth of its first task. |
| `Waves.ReadyIsNextDepth` | crates/beez-runner/src/runner.rs:130-135 | After k waves the ready tasks are exactly the unblocked ones of depth k + 1. |
| `Waves.ExitAnswers` | crates/beez-runner/src/runner.rs:319-358 | Without an execution error the exit status is zero when every process that ran exited zero, and otherwise the code of the first that did not, or 1 when a signal ended it. |
| `Waves.RecordAllRecords` | crates/beez-runner/src/runner.rs:319-358 | Recording a wave's sorted outcomes applies each to statuses, kept outputs, exit status and first error. |
| `Recording.RecordOutcomes` | crates/beez-runner/src/runner.rs:319-358 | The loop over sorted outcomes ends in the folded ledger: statuses, kept outputs, first error, and exit status of the first failure. |
| `Recording.RecordingIgnoresOrder` | crates/beez-runner/src/runner.rs:326-327 | Every permutation of a wave's outcomes records the same. |
| `Recording.SortKeeps` | crates/beez-runner/src/runner.rs:326-327 | Sorting outcomes puts them in declaration order and loses none. |
| `Runner.RenderRequest` | crates/beez-runner/src/runner.rs:170-185 | Fills each text of a request in order, or gives the first failure. |
| `Runner.StartReadyTasks` | crates/beez-runner/src/runner.rs:205-239 | Starts exactly the ready tasks, reports each once, and never meets a task that is not ready; only a refused callback fails. |
| `Runner.RunRequestsConcurrently` | crates/beez-runner/src/runner.rs:250-313 | For every interleaving of tasks and reader threads each started task's events are its lines and then one end, the lines joining to the captured streams; the outcomes are those of the jobs in some order. |
| `Runner.RunWave` | crates/beez-runner/src/runner.rs:136-151 | One wave takes the state after k waves to the state after k + 1 waves of the meaning, or fails with that wave's first process error. |
| `Runner.RunWorkflow` | crates/beez-runner/src/runner.rs:124-166 | The wave loop refines the recursive meaning: on success the answer is zero or the code of the first process that did not exit zero, 1 for a signal, and the events of every task and the blocked tasks are those of the meaning; after a process error every task that ran has told its start, lines and end too; it fails only with the first process error or a refused callback, never with an internal error. |
| `Runner.ZeroExactlyWhenAllSucceed` | crates/beez-runner/src/runner.rs:337-345 | Over an error-free run the exit status is zero exactly when every task succeeded. |
| `Runner.KilledTaskSpoilsRun` | crates/beez-runner/src/runner.rs:240-245 | A task that a signal ends blocks every task that depends on it, and the run does not answer zero; it answers 1 when that task is the first failure. |
| `Runner.WavesFollowLongestPath` | crates/beez-runner/src/runner.rs:124-166 | The number of waves is the length of some dependency path, so at most the longest. |
| `Jobs.PlanIsAhead` | crates/beez-daemon/src/daemon.rs:706-733 | A planned fire lies after the last fire whatever the clock, a one-time job that fired plans nothing, and without catch-up nothing planned is due. |
| `Jobs.PlanIsFirstAfterBoth` | crates/beez-daemon/src/daemon.rs:702-733 | A ready job fires next at the first instant of its schedule after both its last fire and now; only at opening, and only with catch-up, does one missed fire run late. |
| `Jobs.JobsOf` | crates/beez-daemon/src/job.rs:130-163 | A manifest that loads and has schedules gives one job per schedule in order, named after both, with an error exactly when a task has no sandbox and the schedule does not allow that; any other gives one broken job. Each has the state the map holds and is not yet planned, running or queued. |
| `Jobs.JobsOfAreDistinct` | crates/beez-daemon/src/job.rs:148-162 | Distinct schedule names give distinct job IDs. |
| `Jobs.Admit` | crates/beez-daemon/src/job.rs:180-193 | A manifest is admitted exactly when every job has a schedule and no ID is taken by another manifest; a refusal carries the error of the first job without a schedule, or else a taken ID. |
| `Daemons.Registry.Add` | crates/beez-daemon/src/store.rs:77-83 | One entry per file, the new one last; answers whether the file is new. |
| `Daemons.Registry.Remove` | crates/beez-daemon/src/store.rs:86-91 | The file leaves the list; answers whether it was there. |
| `Daemons.StateStore.Put` | crates/beez-daemon/src/store.rs:146-148 | Replaces the state of one job only. |
| `Daemons.StateStore.Keep` | crates/beez-daemon/src/store.rs:151-153 | Drops exactly the states of jobs that are gone. |
| `Daemons.StateStore.Save` | crates/beez-daemon/src/store.rs:156-158 | The file holds every state, its last fire cut to the second. |
| `Daemons.Daemon.constructor` | crates/beez-daemon/src/daemon.rs:153-182 | Opens with the jobs of every watched manifest, no run, and every job planned with late fires allowed. |
| `Daemons.Daemon.PlanAll` | crates/beez-daemon/src/daemon.rs:645-649 | Plans every job once. |
| `Daemons.Daemon.Start` | crates/beez-daemon/src/daemon.rs:557-585 | Sets the flag, clears the waiting fire, counts the run and adds it to the outstanding ones. |
| `Daemons.Daemon.Enqueue` | crates/beez-daemon/src/daemon.rs:544-555 | At most one waiting fire per job. |
| `Daemons.Daemon.Fire` | crates/beez-daemon/src/daemon.rs:499-523 | Notes the fire, starts, queues or drops it as limit and overlap say, saves, and plans the next. |
| `Daemons.Daemon.FireDue` | crates/beez-daemon/src/daemon.rs:481-496 | Fires the jobs that were due, one after another, unless stopping. |
| `Daemons.Daemon.StartQueued` | crates/beez-daemon/src/daemon.rs:624-643 | Starts waiting fires, first job first, until the limit is reached or none is left. |
| `Daemons.Daemon.Finished` | crates/beez-daemon/src/daemon.rs:587-612 | One run fewer, its job remembers the end, and waiting fires start. |
| `Daemons.Daemon.Hold` | crates/beez-daemon/src/daemon.rs:347-358 | Sets the paused flag, saves it and plans again, or answers that the job is unknown. |
| `Daemons.Daemon.Trigger` | crates/beez-daemon/src/daemon.rs:360-377 | Starts a job beside its schedule, or answers why not, in the order the checks are made. |
| `Daemons.Daemon.Add` | crates/beez-daemon/src/daemon.rs:305-331 | Watches an admitted manifest and installs its jobs; a refused one changes nothing. |
| `Daemons.Daemon.Remove` | crates/beez-daemon/src/daemon.rs:333-345 | Drops the manifest, its jobs and their states; an unwatched path changes nothing. |
| `Daemons.Daemon.Install` | crates/beez-daemon/src/daemon.rs:422-455 | The two loops replace one manifest's jobs, each keeping flag and waiting fire, and the planned fire when its schedule is the same. |
| `Daemons.Daemon.ReloadAll` | crates/beez-daemon/src/daemon.rs:397-413 | Takes the new list when it can be read, drops the rest, and reads each manifest in turn. |
| `Daemons.Daemon.Signal` | crates/beez-daemon/src/daemon.rs:263-270 | The first signal stops, the second exits. |
| `DaemonSafety.StepKeepsSound` | crates/beez-daemon/src/daemon.rs:280-303 | Every command, tick, end, re-read and restart keeps the invariant. |
| `DaemonSafety.EveryStateIsSound` | crates/beez-daemon/src/daemon.rs:225-261 | In every state of every history the counter is the number of outstanding runs and within the limit, the state map equals every job's state and the file its cut form, jobs belong to watched manifests, and planned fires lie ahead. |
| `DaemonSafety.FireChanges` | crates/beez-daemon/src/daemon.rs:499-523 | A fire changes one job and its state entry, and leaves that job not due. |
| `DaemonSafety.NothingStaysDue` | crates/beez-daemon/src/daemon.rs:481-496 | No ready job is due after a tick, unless the daemon is stopping. |
| `DaemonSafety.NoteEndKeeps` | crates/beez-daemon/src/daemon.rs:604-609 | The end of a run keeps counter, flags and states in step, also when its job is gone. |
| `DaemonSafety.HoldKeeps` | crates/beez-daemon/src/daemon.rs:347-358 | Pausing and resuming keep the invariant. |
| `DaemonSafety.RemoveKeeps` | crates/beez-daemon/src/daemon.rs:333-345 | Removing a manifest and pruning states keep the invariant. |
| `DaemonSafety.AddKeeps` | crates/beez-daemon/src/daemon.rs:305-331 | An admitted manifest keeps job IDs distinct and the rest of the invariant. |
| `DaemonSafety.RereadKeeps` | crates/beez-daemon/src/daemon.rs:416-455 | Reading a manifest again keeps the invariant. |
| `DaemonSafety.OpenIsSound` | crates/beez-daemon/src/daemon.rs:153-182 | A daemon that opens on the files another one left is sound. |
| `DaemonStarts.FireActsExactly` | crates/beez-daemon/src/daemon.rs:525-542 | At the limit a fire waits; below it an idle job starts one run; of a running job, skip drops the fire, queue lets it wait and parallel starts one more run. No other job changes. |
| `DaemonStarts.TickFiresExactly` | crates/beez-daemon/src/daemon.rs:481-496 | A tick of a daemon that is not stopping fires every job whose instant has come and that carries no error, is switched on and not paused, once and at the planned instant, and no other. |
| `DaemonStarts.NothingStartsWithoutCause` | crates/beez-daemon/src/daemon.rs:499-643 | A step adds a run of a job only when its instant has come, when its waiting fire may start, or when it is triggered idle and below the limit; never when it carries an error. |
| `DaemonStarts.BrokenJobsNeverStart` | crates/beez-daemon/src/daemon.rs:364-366 | In no history does a step start a run of a job that carries an error at that moment. |
| `DaemonStarts.EndLeavesNoneWaiting` | crates/beez-daemon/src/daemon.rs:624-643 | After an end no idle job that carries no error, is switched on and not paused has a fire waiting while there is room. |
| `DaemonStarts.TriggerAnswersExactly` | crates/beez-daemon/src/daemon.rs:360-377 | The answer to a trigger is decided by the first check that fails: unknown, broken, running, at the limit. |
| `DaemonStarts.HoldsAsAsked` | crates/beez-daemon/src/daemon.rs:347-358 | Pausing sets and resuming clears the flag of that job alone, in memory and in the file; an unknown ID changes nothing. |
| `DaemonStarts.HoldsPlanAnew` | crates/beez-daemon/src/daemon.rs:347-358 | A job held waits for no instant, and a job let go is planned from now; no other job changes. |
| `DaemonStarts.SecondSignalExits` | crates/beez-daemon/src/daemon.rs:263-270 | The first signal only stops, and the second one exits with the runs still outstanding. |
| `DaemonStarts.UnwatchDropsExactly` | crates/beez-daemon/src/daemon.rs:333-345 | Removing a manifest takes exactly its jobs and the states of jobs that are gone. |
| `DaemonStarts.RelistKeepsExactly` | crates/beez-daemon/src/daemon.rs:397-413 | A new list keeps exactly the jobs of the manifests on it. |
| `DaemonStarts.WatchInstallsExactly` | crates/beez-daemon/src/daemon.rs:305-331 | A manifest is refused, and nothing changes, exactly when one of its jobs has no schedule or an ID is taken; otherwise it stands last on the list and its jobs behind the others. |
| `DaemonStarts.RereadContinues` | crates/beez-daemon/src/daemon.rs:422-444 | A job read again keeps its flags, and its planned fire when its schedule stayed; otherwise it is planned anew. |
| `DaemonStarts.WithoutPathKeepsOrder` | crates/beez-daemon/src/store.rs:86-91 | Leaving a manifest out keeps the others in order. |
| `DaemonStarts.JobsInKeepOrder` | crates/beez-daemon/src/daemon.rs:397-413 | Leaving jobs out keeps the others in order. |
| `DaemonStarts.BuildKeepsOrder` | crates/beez-daemon/src/job.rs:111-127 | Jobs stand in the order of their manifests. |
| `DaemonFires.FiresAdvance` | crates/beez-daemon/src/daemon.rs:481-523 | Over every history the fires of each job strictly rise while its state is kept; over restarts too, when one-time schedules name whole seconds. |
| `DaemonFires.OpenIsRecorded` | crates/beez-daemon/src/daemon.rs:153-182 | A daemon that opens with nothing on record meets what the histories assume of their first state. |
| `DaemonFires.FireAdvances` | crates/beez-daemon/src/daemon.rs:499-523 | A fire lies beyond the ones before it, and the next is planned beyond it. |
| `DaemonFires.OpenAdvances` | crates/beez-schedule/src/instant.rs:26-30 | A last fire cut to the second by the file still keeps the next planned fire beyond the real one. |
| `DaemonFires.PlanIsBeyond` | crates/beez-daemon/src/daemon.rs:706-733 | From a last fire known to the second, a schedule of whole seconds plans beyond the fire itself. |
| `DaemonFires.OnceFiresOnce` | crates/beez-schedule/src/schedule.rs:24-29 | A one-time job at a whole second that stays watched and unchanged fires at most once in any history, restarts included. |
| `DaemonRuns.FlagsAreExact` | crates/beez-daemon/src/daemon.rs:525-643 | A job that stays in the set and is never parallel has exactly one outstanding run when its flag is set and none otherwise. |
| `DaemonRuns.EndWakesWaiting` | crates/beez-daemon/src/daemon.rs:624-643 | After the end of any run no ready, idle job waits while there is room, whatever the state before. |
| `DaemonRuns.OnlyWaitingStart` | crates/beez-daemon/src/daemon.rs:628-642 | Starting waiting fires starts only ready, idle jobs that wait, and changes nothing else. |
| `DaemonRuns.EndIsRemembered` | crates/beez-daemon/src/daemon.rs:603-609 | A run's directory and status are kept for its job alone, beside its paused flag and last fire; no other state changes. |
| `DaemonRuns.StepLeavesNoneIdle` | crates/beez-daemon/src/daemon.rs:525-612 | Ticks, ends, triggers, pauses, removals, list re-reads and restarts leave no ready, idle job waiting while there is room. |
| `DaemonRuns.ResumeLeavesNoneIdleExactly` | crates/beez-daemon/src/daemon.rs:347-358 | Resuming leaves none idle exactly when it does not free a waiting fire of an idle, otherwise ready job while there is room. |
| `DaemonRuns.RereadLeavesNoneIdleExactly` | crates/beez-daemon/src/daemon.rs:422-455 | Installing a re-read manifest leaves none idle exactly when none of its ready jobs has a waiting fire and no run while there is room. |
| `DaemonRuns.WaitingHasARun` | crates/beez-daemon/src/daemon.rs:525-542 | A fire that has to wait waits behind an outstanding run, and so does every queued ready job while none is idle. |
| `DaemonRuns.HoldsAreTwins` | crates/beez-daemon/src/client.rs:118-131 | Pausing or resuming in the file alone writes the same file and answers the same as through the daemon. |
| `DaemonRuns.RereadKeepsHistory` | crates/beez-daemon/src/daemon.rs:447-449 | A manifest that stops loading and loads again gives its jobs back with their states, and never changes the state map. |
| `DaemonRuns.StoppingStartsOnlyTriggers` | crates/beez-daemon/src/daemon.rs:263-278 | A daemon that is stopping stays so until a restart, and a step adds a run exactly when it is a trigger answered with done. |
| `DaemonRuns.StoppingDrains` | crates/beez-daemon/src/daemon.rs:482-484 | Over a history without triggers and restarts a stopping daemon only loses runs. |
| `DaemonWitnesses.EveryMinuteIsAccepted` | crates/beez-schedule/src/cron_schedule.rs:47-76 | The schedule text of the histories below is one the daemon accepts. |
| `DaemonWitnesses.ResumingCanStrand` | crates/beez-daemon/src/daemon.rs:347-358 | A history from a fresh daemon, with an every-minute schedule, whose last step is a resume that leaves a waiting fire, room for it, and no run to wake it. |
| `DaemonWitnesses.RereadingCanStrand` | crates/beez-daemon/src/daemon.rs:422-455 | Such a history whose last step is a re-read: the manifest switches the job off while a fire waits, the run ends, and the edit is undone. |
| `DaemonWitnesses.TriggeringStartsWhileStopping` | crates/beez-daemon/src/daemon.rs:360-377 | A history from a fresh daemon in which a trigger after the stop starts a run. |
| `DaemonWitnesses.FractionsCanFireTwice` | crates/beez-schedule/src/instant.rs:24-30 | For every instant with a fraction of a second, with or without catch-up, a history with a restart in which the job that names it fires twice. |
| `MaskTrees.MasksAreExact` | crates/beez-sandbox/src/bubblewrap.rs:131-183 | Over any history of whole holds and drops by any runs, the mask directories are exactly those the live runs' policies need, and with no run left the tree is the original one. |
| `MaskTrees.HoldBalances` | crates/beez-sandbox/src/bubblewrap.rs:152-171 | A whole hold adds exactly the directories its policy needs of the base, each marked by exactly its holders. |
| `MaskTrees.DropBalances` | crates/beez-sandbox/src/bubblewrap.rs:256-267 | A whole drop removes exactly what no other run needs, although chains share parents and are removed one after another. |
| `MaskTrees.MasksAreChains` | crates/beez-sandbox/src/bubblewrap.rs:178-183 | While other runs hold masks, a planned chain is still the missing ancestors of the path in the base. |
| `MaskTrees.LastTurnRemoves` | crates/beez-sandbox/src/bubblewrap.rs:261-265 | A directory only this run held is empty at its last turn in the list. |
| `MaskFiles.MarkInUse` | crates/beez-sandbox/src/bubblewrap.rs:207-232 | Creates and marks all directories of one mask, sweeping dead markers, or fails when a file is in the way or a directory stays missing. |
| `MaskFiles.MarkAllOrFail` | crates/beez-sandbox/src/bubblewrap.rs:213-222 | Marks from the parent down, and fails at the first directory that is missing. |
| `MaskFiles.RemoveDeadMarkers` | crates/beez-sandbox/src/bubblewrap.rs:235-247 | Removes exactly the markers of processes that are gone. |
| `MaskFiles.HoldMasks` | crates/beez-sandbox/src/bubblewrap.rs:152-171 | From any tree, markers of dead runs included, the loop over planned masks ends in the tree and the record of the hold function. |
| `MaskFiles.DropMasks` | crates/beez-sandbox/src/bubblewrap.rs:256-267 | The two loops end in the tree of the drop function. |
| `MaskProtocol.StepIsSafe` | crates/beez-sandbox/src/bubblewrap.rs:207-267 | Every file operation of every run, crash, and foreign change keeps living runs' markers and the directories they are in. |
| `MaskProtocol.HeldDirectoriesExist` | crates/beez-sandbox/src/bubblewrap.rs:207-267 | Under any interleaving of any number of runs, every directory of a marked mask exists until that living run starts its own drop. |
| `MaskProtocol.MarkedMaskStaysListed` | crates/beez-sandbox/src/bubblewrap.rs:160-165 | From the moment a run has marked one of its masks, its two lists hold every directory of that mask. |
| `MaskProtocol.MarkedMasksExist` | crates/beez-sandbox/src/bubblewrap.rs:152-171 | Told on actions alone: from the moment a run has marked a mask until it starts to give back, every directory of the mask exists and carries its marker, while the run lives. |
| `MaskProtocol.MarkedMasksAreGivenBack` | crates/beez-sandbox/src/bubblewrap.rs:256-267 | A run that has given everything back has no marker left in any directory of a mask it marked. |
| `MaskProtocol.FourRounds` | crates/beez-sandbox/src/bubblewrap.rs:207-232 | A round that finds a directory missing is followed by another for the same mask, but for the fourth. |
| `MaskProtocol.DropsTakeMarkersBack` | crates/beez-sandbox/src/bubblewrap.rs:256-267 | Once a run is done giving back, none of its held markers is left, and no run ever takes a file of the host. |
| `Sandboxes.DedupSorts` | crates/beez-sandbox/src/resolve.rs:151-157 | Sorted, with each path once and none lost. |
| `Sandboxes.ProtectedAncestorsAre` | crates/beez-sandbox/src/resolve.rs:138-147 | The protected ancestors are exactly the parents of denied paths inside a writable directory, parents before children. |
| `Mounts.WritableExactly` | crates/beez-sandbox/src/bubblewrap.rs:300-332 | In the mount list a path is host-writable exactly when some allow contains it and no write or read deny does, or it is in the bridge directory; denies that do not exist yet or lie above an allow included. |
| `Mounts.ReadDeniedIsHidden` | crates/beez-sandbox/src/bubblewrap.rs:320-326 | Outside the bridge directory a path under a read deny is the host's own exactly when it lies at the null device and that is denied by name, because a denied file is covered by the null device. |
| `Mounts.WritableParentsStay` | crates/beez-sandbox/src/bubblewrap.rs:303-311 | An existing, writable parent of a denied path is a mount point of its own, so it cannot be moved. |
| `Mounts.DeniedIsMounted` | crates/beez-sandbox/src/bubblewrap.rs:312-319 | Under a writable directory every denied path gets a mount. |
| `Mounts.PlanCovers` | crates/beez-sandbox/src/bubblewrap.rs:131-146 | The plan holds a mask exactly for the denied paths inside a writable directory that need one. |
| `Mounts.OtherPathsAreReadOnly` | crates/beez-sandbox/src/bubblewrap.rs:273-299 | A path the policy says nothing about is the host's own and read-only, but for fresh devices, processes and temporary files. |
| `Mounts.DeniedShowsItselfOrNothing` | crates/beez-sandbox/src/bubblewrap.rs:312-319 | A denied path in a writable directory that is missing or stands in for a mask shows the empty directory; any other that exists is its own read-only mount. |
| `Paths.PathReadsBack` | crates/beez-sandbox/src/bubblewrap.rs:353-370 | The text of a path names that path and no other. |
| `Arguments.ParseRelay` | crates/beez-sandbox/src/init.rs:59-80 | An argument is read as a relay exactly when up to its first equals sign it is a port from 1 to 65535, perhaps with a plus sign, and a socket follows. |
| `Arguments.RelayReadsBack` | crates/beez-sandbox/src/init.rs:51-56 | Every relay argument that is written is read as the port and the socket it was written for. |
| `Arguments.ArgumentsReadBack` | crates/beez-sandbox/src/bubblewrap.rs:273-351 | Read by `bwrap` and then by `sandbox-init`, the words are the four isolation flags, the mount list in order, the working directory, the two relays with their ports, the listed programs, and the program with its arguments. |
| `Arguments.BwrapArguments` | crates/beez-sandbox/src/bubblewrap.rs:273-351 | The words the loops append enter exactly the sandbox and the command asked for, however paths and arguments are spelled. |
| `Seatbelt.ProfileAllowsExactly` | crates/beez-sandbox/src/seatbelt.rs:29-78 | With the last matching rule deciding: writing is allowed exactly under an allow or for a device and under no deny, removing also needs the path not to be a protected ancestor, reading exactly outside read denies, metadata always. |
| `Seatbelt.NetworkExactly` | crates/beez-sandbox/src/seatbelt.rs:79-88 | A task connects to the two proxy ports, with local networking to every port of the local host, and never to another host; it binds and accepts on the local host only. |
| `Seatbelt.OthersExactly` | crates/beez-sandbox/src/seatbelt.rs:31-44 | Of everything else a task may signal and inspect processes of its own sandbox and use what is listed, and whatever the profile does not name is denied. |
| `Seatbelt.RunsExactly` | crates/beez-sandbox/src/seatbelt.rs:90-100 | Everything may run without a list of executables or with an empty one; with a list, exactly the listed programs and what lies in listed directories. |
| `Seatbelt.BackendsAgree` | crates/beez-sandbox/src/seatbelt.rs:54-70 | Both backends give the same answer about writing a path that is no device, may be read and is not in the bridge directory. |
| `SeatbeltProfiles.Profile` | crates/beez-sandbox/src/seatbelt.rs:29-102 | The text, read rule by rule with verb, operation, filters and quoted paths, is the rule list whose verdicts are exact above. |
| `SeatbeltProfiles.ProfileReadsBack` | crates/beez-sandbox/src/seatbelt.rs:29-102 | Every rule list reads back from its text: verbs, operations, filters, ports, and paths whatever characters they hold. |
| `SeatbeltProfiles.WriteRule` | crates/beez-sandbox/src/seatbelt.rs:104-113 | Writes one rule over all the paths, or nothing when there are none. |
| `SeatbeltProfiles.Quote` | crates/beez-sandbox/src/seatbelt.rs:116-128 | The loop escapes quotes and backslashes and nothing else. |
| `SeatbeltProfiles.QuotedReadsBack` | crates/beez-sandbox/src/seatbelt.rs:116-128 | A quoted path reads back as the path and ends where it was closed, whatever characters it holds. |
| `WeekDays.FieldKeepsMeaning` | crates/beez-schedule/src/cron_schedule.rs:161-183 | For every list of terms that survive, the Quartz field names the same weekdays as the crontab field. |
| `WeekDays.TermKeepsMeaning` | crates/beez-schedule/src/cron_schedule.rs:161-198 | A term a crontab knows keeps its weekdays exactly when it is no range, or its range ends before 7, starts at 7, or runs from 0 in steps of at least 7. |
| `WeekDays.WholeWeekBecomesSunday` | crates/beez-schedule/src/cron_schedule.rs:196-197 | The range 0-7 is rewritten to 1-1, which names Sunday alone instead of every day. |
| `WeekDays.RefusedExactly` | crates/beez-schedule/src/cron_schedule.rs:184-194 | A field is refused exactly when some day of some term is a number above 7, and the error names the first one. |
| `WeekDays.ShiftedParts` | crates/beez-schedule/src/cron_schedule.rs:164-179 | The rewritten term has the shifted days and the step of the original. |
| `Splitting.JoinedSplits` | crates/beez-schedule/src/cron_schedule.rs:170-182 | Splitting joined parts gives the parts back. |
| `Offsets.FromStr` | crates/beez-schedule/src/offset.rs:33-58 | Every offset read is a whole number of minutes within 18 hours. |
| `Offsets.ReadsExactly` | crates/beez-schedule/src/offset.rs:33-58 | A text is read as so many seconds exactly when it names UTC and they are none, or is a sign, hours and optional minutes below 60 that come to them, within 18 hours. |
| `Offsets.NumbersAreReadExactly` | crates/beez-schedule/src/offset.rs:49-50 | Hours and minutes are digits with at most one sign, within 32 bits. |
| `Offsets.PrintIsPadded` | crates/beez-schedule/src/offset.rs:62-75 | A printed offset is Z, or a sign with two digits of hours, a colon and two of minutes. |
| `Offsets.PrintedReadsBack` | crates/beez-schedule/src/offset.rs:62-75 | An offset of whole minutes reads back from its print. |
| `CronSchedules.Normalize` | crates/beez-schedule/src/cron_schedule.rs:130-153 | Accepted exactly with five to seven fields, one plain number of seconds, and weekdays that can be moved; five fields gain a zero second, the weekday field is the moved one, and the other fields stay as written. |
| `CronSchedules.AcceptedExactly` | crates/beez-schedule/src/cron_schedule.rs:47-76 | Blank text is empty, a macro is accepted when the parser knows it, and any other text when it can be normalized and the parser knows its fields, or both variants when both day fields restrict. |
| `CronSchedules.WordsAreCut` | crates/beez-schedule/src/cron_schedule.rs:131-136 | Whatever blanks stand before and between, a text is cut into its words. |
| `CronSchedules.JoinedWordsSplit` | crates/beez-schedule/src/cron_schedule.rs:211-218 | The fields joined by blanks split into the same fields again. |
| `CronSchedules.WeekdaysAreCrontab` | crates/beez-schedule/src/cron_schedule.rs:145-152 | The rewritten field matches exactly the weekdays the crontab field names. |
| `CronSchedules.NextIsFirstMatch` | crates/beez-schedule/src/cron_schedule.rs:47-95 | For every accepted expression, macros included, the next fire is the first instant after the given one that matches all other fields and, when both day fields restrict, either of them. |
| `CronSchedules.FiresAreMinutesApart` | crates/beez-schedule/src/cron_schedule.rs:137-140 | Two matches of any accepted expression, macros included, are at least 60 seconds apart. |
| `CronSchedules.NextIsAMinuteLater` | crates/beez-schedule/src/cron_schedule.rs:79-95 | Consecutive fires are at least 60 seconds apart. |

## Left out

- The command line, terminal output, colours, run artifacts, labels, tallies, pruning of old runs and release scripts.
- Running one request outside a workflow, elapsed times, sandbox settings and harness arguments of a request.
- A line travelling through the channel is one step with the callback that reports it.
- Real sockets, signals, processes and clocks: they are events and arbitrary inputs. The clock is never before 1970.
- Which manifests changed on disk: any watched manifest may be read again at any time.
- The text of log lines and answers; an answer is a word, and commands given while no daemon runs are modelled for pause and resume only.
- Failed file writes and crashes in the middle of a daemon step.
- Daemons.Registry.Add: the list is not written to its file, because a restart may find any list.
- DaemonFires.FiresAdvance: over restarts one-time schedules name whole seconds; `DaemonWitnesses.FractionsCanFireTwice` shows it is false of the others.
- DaemonFires.FiresAdvance: forgets a job's fires when removing a manifest drops its state, as the daemon does.
- DaemonSafety.EveryStateIsSound: job IDs stay distinct over re-reads, which the daemon checks only when a manifest is added.
- MaskTrees.MasksAreExact: holds and drops are whole and nothing else changes the tree meanwhile; crashed runs are in MaskProtocol.
- MaskProtocol.HeldDirectoriesExist: process numbers are not used again, and nothing but runs removes markers.
- Path canonicalisation, `PATH` lookup, program tables, domain rules, the proxies, Landlock, and what `sandbox-init` does with what it reads.
- File names and arguments are text; a name that is no valid text is not modelled.
- The parser of the cron library and the calendar: what a field's text stands for and the fields of an instant are given.
- WeekDays.FieldKeepsMeaning: a single day with a step is in neither form, because a crontab gives it no meaning.
- Offsets.FromStr: does not model 32-bit overflow of an hour count above 596523; it is refused as beyond the limit.
- Workflow and schedule decoding from YAML or JSON, policy merging and resolution of groups.
