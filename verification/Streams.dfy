/** How the output of one child process is split, collected and reported. */
module Streams {
  import opened Outcomes
  import Sequences
  import opened Templates

  type byte = bv8

  const NEWLINE: byte := 10

  type ErrorKind = string

  /** What reading a pipe yields: its bytes, and whether it ends with an error. */
  datatype Pipe = Pipe(bytes: seq<byte>, broken: bool)

  datatype ProcessOutput = ProcessOutput(stdout: seq<byte>, stderr: seq<byte>, status: Option<int>) {
    function Bytes(stream: TaskOutput): seq<byte> {
      match stream
      case Stdout => stdout
      case Stderr => stderr
    }
  }

  /** One child process: it does not start, or writes two streams and is waited for. */
  datatype Execution =
    | SpawnError(kind: ErrorKind)
    | Child(out: Pipe, err: Pipe, wait: Result<Option<int>, ErrorKind>)

  type Outcome = Result<ProcessOutput, ErrorKind>

  datatype RunEvent =
    | Started(task: nat)
    | OutputLine(task: nat, stream: TaskOutput, line: seq<byte>)
    | Finished(task: nat, output: ProcessOutput)
    | Failed(task: nat, kind: ErrorKind)
    | Blocked(task: nat)

  // ----- lines -----

  /** How many bytes the first line takes, a closing newline included. */
  function LineLength(bytes: seq<byte>): (n: nat)
    requires bytes != []
    ensures 1 <= n <= |bytes|
    ensures NEWLINE !in bytes[..n - 1]
    ensures bytes[n - 1] == NEWLINE || n == |bytes|
  {
    if bytes[0] == NEWLINE || |bytes| == 1 then 1
    else
      var n := 1 + LineLength(bytes[1..]);
      assert bytes[..n - 1] == [bytes[0]] + bytes[1..][..n - 2];
      n
  }

  /** The next line and what is left; nothing at the end, or when an error cuts the line short. */
  function ReadLine(pipe: Pipe): (r: Option<(seq<byte>, Pipe)>)
    ensures r.Some? ==> r.value.0 != [] && pipe.bytes == r.value.0 + r.value.1.bytes && r.value.1.broken == pipe.broken
  {
    if pipe.bytes == [] then None
    else
      var n := LineLength(pipe.bytes);
      if pipe.broken && pipe.bytes[n - 1] != NEWLINE then None
      else Some((pipe.bytes[..n], Pipe(pipe.bytes[n..], pipe.broken)))
  }

  /** Every byte the reader hands on. */
  function Delivered(pipe: Pipe): seq<byte>
    decreases |pipe.bytes|
  {
    match ReadLine(pipe)
    case None => []
    case Some((line, rest)) => line + Delivered(rest)
  }

  function Bytes(line: seq<byte>): seq<byte> {
    line
  }

  /** The lines put back together. */
  function Rejoined(lines: seq<seq<byte>>): seq<byte> {
    Sequences.Flatten(Bytes, lines)
  }

  /** A newline stands at the end and nowhere else. */
  predicate IsWholeLine(line: seq<byte>) {
    line != [] && line[|line| - 1] == 10 && 10 !in line[..|line| - 1]
  }

  /** Every line is whole, but the last may lack its newline when nothing follows. */
  predicate AreLines(lines: seq<seq<byte>>, atEnd: bool) {
    forall i :: 0 <= i < |lines| ==> IsWholeLine(lines[i]) || (atEnd && i == |lines| - 1 && 10 !in lines[i])
  }

  lemma ReadLineIsLine(pipe: Pipe)
    requires ReadLine(pipe).Some?
    ensures var (line, rest) := ReadLine(pipe).value;
            IsWholeLine(line) || (rest.bytes == [] && NEWLINE !in line)
  {
    var n := LineLength(pipe.bytes);
    var line := pipe.bytes[..n];
    assert line[..n - 1] == pipe.bytes[..n - 1];
    assert line == line[..n - 1] + [line[n - 1]];
  }

  /** Hands on line after line; the answer lists them. */
  method Forward(pipe: Pipe) returns (lines: seq<seq<byte>>)
    ensures Rejoined(lines) == Delivered(pipe)
    ensures AreLines(lines, true)
  {
    lines := [];
    var rest := pipe;
    var read := ReadLine(rest);
    while read.Some?
      invariant read == ReadLine(rest)
      invariant Rejoined(lines) + Delivered(rest) == Delivered(pipe)
      invariant AreLines(lines, rest.bytes == [])
      decreases |rest.bytes|
    {
      var (line, after) := read.value;
      ReadLineIsLine(rest);
      OneMoreLine(lines, line, Delivered(after));
      lines := lines + [line];
      rest := after;
      read := ReadLine(rest);
    }
    assert Rejoined(lines) + [] == Rejoined(lines);
  }

  lemma OneMoreLine(lines: seq<seq<byte>>, line: seq<byte>, rest: seq<byte>)
    ensures Rejoined(lines + [line]) + rest == Rejoined(lines) + (line + rest)
  {
    Sequences.FlattenPush(Bytes, lines, line);
  }

  /** A pipe that ends normally is handed on byte for byte. */
  lemma {:induction false} AllDelivered(pipe: Pipe)
    requires !pipe.broken
    ensures Delivered(pipe) == pipe.bytes
    decreases |pipe.bytes|
  {
    if pipe.bytes != [] {
      AllDelivered(ReadLine(pipe).value.1);
    }
  }

  /** `n` bytes of `bytes` are whole lines, and no line ends after them. */
  predicate WholeLines(bytes: seq<byte>, n: nat) {
    n <= |bytes| && 10 !in bytes[n..] && (n > 0 ==> bytes[n - 1] == 10)
  }

  /** A pipe that breaks is handed on up to its last newline. */
  lemma {:induction false} WholeLinesDelivered(pipe: Pipe)
    requires pipe.broken
    ensures Delivered(pipe) <= pipe.bytes && WholeLines(pipe.bytes, |Delivered(pipe)|)
    decreases |pipe.bytes|
  {
    if ReadLine(pipe).None? {
      NothingWhole(pipe);
    } else {
      var (line, rest) := ReadLine(pipe).value;
      WholeLinesDelivered(rest);
      LineInFront(line, rest.bytes, |Delivered(rest)|);
      assert pipe.bytes == line + rest.bytes;
      LineKeepsPrefix(line, Delivered(rest), rest.bytes);
    }
  }

  lemma LineKeepsPrefix(line: seq<byte>, one: seq<byte>, other: seq<byte>)
    requires one <= other
    ensures line + one <= line + other && |line + one| == |line| + |one|
  {
  }

  lemma NothingWhole(pipe: Pipe)
    requires pipe.broken && ReadLine(pipe).None?
    ensures WholeLines(pipe.bytes, 0)
  {
    assert pipe.bytes[0..] == pipe.bytes;
    if pipe.bytes != [] {
      var n := LineLength(pipe.bytes);
      assert pipe.bytes == pipe.bytes[..n - 1] + [pipe.bytes[n - 1]];
    }
  }

  lemma LineInFront(line: seq<byte>, bytes: seq<byte>, n: nat)
    requires WholeLines(bytes, n)
    requires line != [] && line[|line| - 1] == NEWLINE
    ensures WholeLines(line + bytes, |line| + n)
  {
    assert (line + bytes)[|line| + n..] == bytes[n..];
    if n > 0 { assert (line + bytes)[|line| + n - 1] == bytes[n - 1]; }
  }

  /** What a request ends with, once both streams are read and the child is waited for. */
  function OutcomeOf(execution: Execution): Outcome {
    match execution
    case SpawnError(kind) => Err(kind)
    case Child(_, _, Err(kind)) => Err(kind)
    case Child(out, err, Ok(status)) => Ok(ProcessOutput(Delivered(out), Delivered(err), status))
  }

  // ----- the threads of one task -----

  /** One reader thread: a line is collected first and sent on in a second step. */
  datatype Reader = Reader(pipe: Pipe, collected: seq<byte>, held: Option<seq<byte>>) {
    predicate AtEnd() { held.None? && ReadLine(pipe).None? }
  }

  datatype Thread =
    | Starting(execution: Execution)
    | Reading(out: Reader, err: Reader, wait: Result<Option<int>, ErrorKind>)
    | Ended

  datatype Move = Spawn | Collect(stream: TaskOutput) | Send(stream: TaskOutput) | End

  const MOVES: set<Move> := {Spawn, Collect(Stdout), Collect(Stderr), Send(Stdout), Send(Stderr), End}

  function ReaderOf(thread: Thread, stream: TaskOutput): Reader
    requires thread.Reading?
  {
    if stream == Stdout then thread.out else thread.err
  }

  function WithReader(thread: Thread, stream: TaskOutput, reader: Reader): Thread
    requires thread.Reading?
  {
    if stream == Stdout then thread.(out := reader) else thread.(err := reader)
  }

  predicate Enabled(thread: Thread, move: Move) {
    match move
    case Spawn => thread.Starting? && thread.execution.Child?
    case Collect(stream) => thread.Reading? && ReaderOf(thread, stream).held.None? && ReadLine(ReaderOf(thread, stream).pipe).Some?
    case Send(stream) => thread.Reading? && ReaderOf(thread, stream).held.Some?
    case End => (thread.Starting? && thread.execution.SpawnError?) || (thread.Reading? && thread.out.AtEnd() && thread.err.AtEnd())
  }

  lemma SomeMoveEnabled(thread: Thread)
    requires !thread.Ended?
    ensures exists move :: move in MOVES && Enabled(thread, move)
  {
    if thread.Starting? {
      if thread.execution.Child? { assert Enabled(thread, Spawn); } else { assert Enabled(thread, End); }
    } else if thread.out.held.Some? {
      assert Enabled(thread, Send(Stdout));
    } else if thread.err.held.Some? {
      assert Enabled(thread, Send(Stderr));
    } else if ReadLine(thread.out.pipe).Some? {
      assert Enabled(thread, Collect(Stdout));
    } else if ReadLine(thread.err.pipe).Some? {
      assert Enabled(thread, Collect(Stderr));
    } else {
      assert Enabled(thread, End);
    }
  }

  /** The thread after a move. */
  function Moved(thread: Thread, move: Move): Thread
    requires Enabled(thread, move)
  {
    match move
    case Spawn =>
      var Child(out, err, wait) := thread.execution;
      Reading(Reader(out, [], None), Reader(err, [], None), wait)
    case Collect(stream) =>
      var reader := ReaderOf(thread, stream);
      var (line, rest) := ReadLine(reader.pipe).value;
      WithReader(thread, stream, Reader(rest, reader.collected + line, Some(line)))
    case Send(stream) => WithReader(thread, stream, ReaderOf(thread, stream).(held := None))
    case End => Ended
  }

  /** What a thread ends with: the bytes its readers collected. */
  function ResultOf(thread: Thread): Outcome
    requires Enabled(thread, End)
  {
    match thread
    case Starting(SpawnError(kind)) => Err(kind)
    case Reading(_, _, Err(kind)) => Err(kind)
    case Reading(out, err, Ok(status)) => Ok(ProcessOutput(out.collected, err.collected, status))
  }

  /** The event a move makes the receiver report, if any. */
  function EventOf(task: nat, thread: Thread, move: Move): Option<RunEvent>
    requires Enabled(thread, move)
  {
    match move
    case Send(stream) => Some(OutputLine(task, stream, ReaderOf(thread, stream).held.value))
    case End => Some(EndEvent(task, ResultOf(thread)))
    case _ => None
  }

  function EndEvent(task: nat, outcome: Outcome): RunEvent {
    match outcome
    case Ok(output) => Finished(task, output)
    case Err(kind) => Failed(task, kind)
  }

  /** Moves left, at most. */
  function Work(thread: Thread): nat {
    match thread
    case Starting(Child(out, err, _)) => 2 * |out.bytes| + 2 * |err.bytes| + 2
    case Starting(_) => 1
    case Reading(out, err, _) => ReaderWork(out) + ReaderWork(err) + 1
    case Ended => 0
  }

  function ReaderWork(reader: Reader): nat {
    2 * |reader.pipe.bytes| + if reader.held.Some? then 1 else 0
  }

  lemma MoveIsWork(thread: Thread, move: Move)
    requires Enabled(thread, move)
    ensures Work(Moved(thread, move)) < Work(thread)
  {
  }

  // ----- what the events of one task tell -----

  /** What the events say of one stream, put together. */
  function Joined(events: seq<RunEvent>, stream: TaskOutput): seq<byte> {
    if events == [] then []
    else
      var last := events[|events| - 1];
      Joined(events[..|events| - 1], stream) + if last.OutputLine? && last.stream == stream then last.line else []
  }

  lemma JoinedAppend(events: seq<RunEvent>, event: RunEvent, stream: TaskOutput)
    ensures Joined(events + [event], stream)
         == Joined(events, stream) + if event.OutputLine? && event.stream == stream then event.line else []
  {
    assert (events + [event])[..|events|] == events;
  }

  predicate OnlyLines(events: seq<RunEvent>) {
    forall i :: 0 <= i < |events| ==> events[i].OutputLine?
  }

  /** The whole report of a task that ran: output lines, then its end, and no byte lost or added. */
  predicate Told(task: nat, outcome: Outcome, events: seq<RunEvent>) {
    && |events| >= 1
    && OnlyLines(events[..|events| - 1])
    && events[|events| - 1] == EndEvent(task, outcome)
    && (outcome.Ok? ==> forall stream :: Joined(events[..|events| - 1], stream) == outcome.value.Bytes(stream))
  }

  predicate ReaderTells(pipe: Pipe, reader: Reader, joined: seq<byte>) {
    && reader.collected + Delivered(reader.pipe) == Delivered(pipe)
    && joined + (if reader.held.Some? then reader.held.value else []) == reader.collected
  }

  /** The report of a task so far, while its threads run. */
  predicate Telling(task: nat, execution: Execution, thread: Thread, events: seq<RunEvent>) {
    match thread
    case Starting(starting) => starting == execution && events == []
    case Reading(out, err, wait) =>
      && OnlyLines(events) && execution.Child? && wait == execution.wait
      && ReaderTells(execution.out, out, Joined(events, Stdout))
      && ReaderTells(execution.err, err, Joined(events, Stderr))
    case Ended => Told(task, OutcomeOf(execution), events)
  }

  function Extended(events: seq<RunEvent>, event: Option<RunEvent>): seq<RunEvent> {
    if event.Some? then events + [event.value] else events
  }

  lemma MoveKeepsTelling(task: nat, execution: Execution, thread: Thread, events: seq<RunEvent>, move: Move)
    requires Telling(task, execution, thread, events) && Enabled(thread, move)
    ensures Telling(task, execution, Moved(thread, move), Extended(events, EventOf(task, thread, move)))
    ensures move.End? ==> ResultOf(thread) == OutcomeOf(execution)
  {
    match move
    case Spawn => SpawnKeepsTelling(task, execution, thread, events);
    case Collect(stream) => CollectKeepsTelling(task, execution, thread, events, stream);
    case Send(stream) => SendKeepsTelling(task, execution, thread, events, stream);
    case End => EndKeepsTelling(task, execution, thread, events);
  }

  lemma SpawnKeepsTelling(task: nat, execution: Execution, thread: Thread, events: seq<RunEvent>)
    requires Telling(task, execution, thread, events) && Enabled(thread, Spawn)
    ensures Telling(task, execution, Moved(thread, Spawn), events)
  {
    assert [] + Delivered(execution.out) == Delivered(execution.out);
    assert [] + Delivered(execution.err) == Delivered(execution.err);
  }

  lemma EndKeepsTelling(task: nat, execution: Execution, thread: Thread, events: seq<RunEvent>)
    requires Telling(task, execution, thread, events) && Enabled(thread, End)
    ensures ResultOf(thread) == OutcomeOf(execution)
    ensures Told(task, OutcomeOf(execution), events + [EndEvent(task, ResultOf(thread))])
  {
    var told := events + [EndEvent(task, ResultOf(thread))];
    assert told[..|told| - 1] == events;
    if thread.Reading? {
      ReaderToldAll(execution.out, thread.out, Joined(events, Stdout));
      ReaderToldAll(execution.err, thread.err, Joined(events, Stderr));
    }
  }

  lemma ReaderToldAll(pipe: Pipe, reader: Reader, joined: seq<byte>)
    requires ReaderTells(pipe, reader, joined) && reader.AtEnd()
    ensures joined == reader.collected == Delivered(pipe)
  {
    assert reader.collected + [] == reader.collected;
    assert joined + [] == joined;
  }

  lemma CollectKeepsTelling(task: nat, execution: Execution, thread: Thread, events: seq<RunEvent>, stream: TaskOutput)
    requires Telling(task, execution, thread, events) && Enabled(thread, Collect(stream))
    ensures Telling(task, execution, Moved(thread, Collect(stream)), events)
  {
    var reader := ReaderOf(thread, stream);
    var (line, rest) := ReadLine(reader.pipe).value;
    assert (reader.collected + line) + Delivered(rest) == reader.collected + Delivered(reader.pipe);
    assert Joined(events, stream) + [] == Joined(events, stream);
  }

  lemma SendKeepsTelling(task: nat, execution: Execution, thread: Thread, events: seq<RunEvent>, stream: TaskOutput)
    requires Telling(task, execution, thread, events) && Enabled(thread, Send(stream))
    ensures Telling(task, execution, Moved(thread, Send(stream)), Extended(events, EventOf(task, thread, Send(stream))))
  {
    var event := OutputLine(task, stream, ReaderOf(thread, stream).held.value);
    JoinedAppend(events, event, Stdout);
    JoinedAppend(events, event, Stderr);
    assert Joined(events, Stdout) + [] == Joined(events, Stdout);
    assert Joined(events, Stderr) + [] == Joined(events, Stderr);
  }

  // ----- one log for many tasks -----

  /** The events of one task, in the order the log holds them. */
  function Project(log: seq<RunEvent>, task: nat): seq<RunEvent> {
    if log == [] then []
    else
      var last := log[|log| - 1];
      Project(log[..|log| - 1], task) + if last.task == task then [last] else []
  }

  lemma ProjectAppend(log: seq<RunEvent>, event: RunEvent, task: nat)
    ensures Project(log + [event], task) == Project(log, task) + if event.task == task then [event] else []
  {
    assert (log + [event])[..|log|] == log;
  }
}
