/** The `bwrap` command line of one resolved sandbox, and what `bwrap` and `sandbox-init` read in it. */
module Arguments {
  import opened Outcomes
  import opened Paths
  import opened Sequences
  import opened Splitting
  import opened Sandboxes
  import opened MaskTrees
  import opened Mounts

  /** What runs in the sandbox and where; `beez` is the program that enters it. */
  datatype Command = Command(workingDirectory: Path, beez: Path, program: Path, arguments: seq<string>)

  // ----- relays -----

  const HTTP_PORT: nat := 3128
  const SOCKS_PORT: nat := 1080

  function RelayArgument(port: nat, socket: string): string {
    Decimal(port) + "=" + socket
  }

  datatype RelayError = NoSeparator | BadPort | NoSocket

  /** A port of 16 bits, perhaps with a plus sign. */
  function ParsePort(text: string): Option<nat> {
    var digits := if text != "" && text[0] == '+' then text[1..] else text;
    if IsNumber(digits) && Value(digits) <= 65_535 then Some(Value(digits)) else None
  }

  /** A number of 16 bits that is not zero, perhaps with a plus sign. */
  predicate IsPort(text: string, port: nat) {
    1 <= port <= 65_535
    && ((IsNumber(text) && Value(text) == port) || ("+" <= text && IsNumber(text[1..]) && Value(text[1..]) == port))
  }

  /** Up to the first equals sign stands the port, and behind it the socket. */
  predicate IsRelay(argument: string, port: nat, socket: string) {
    socket != "" && exists k: nat :: k < |argument| && IsRelayAt(argument, port, socket, k)
  }

  predicate IsRelayAt(argument: string, port: nat, socket: string, k: nat)
    requires k < |argument|
  {
    argument[k] == '=' && '=' !in argument[..k] && IsPort(argument[..k], port) && argument[k + 1..] == socket
  }

  function ParseRelay(argument: string): (r: Result<(nat, string), RelayError>)
    ensures r == Err(NoSeparator) <==> '=' !in argument
    ensures forall port: nat, socket :: r == Ok((port, socket)) <==> IsRelay(argument, port, socket)
  {
    RelayIsRead(argument);
    match SplitOnce(argument, '=')
    case None => Err(NoSeparator)
    case Some((port, socket)) =>
      match ParsePort(port)
      case None => Err(BadPort)
      case Some(0) => Err(BadPort)
      case Some(number) => if socket == "" then Err(NoSocket) else Ok((number, socket))
  }

  lemma RelayIsRead(argument: string)
    ensures SplitOnce(argument, '=').None? ==> forall port: nat, socket :: !IsRelay(argument, port, socket)
    ensures SplitOnce(argument, '=').Some? ==>
              var (before, after) := SplitOnce(argument, '=').value;
              forall port: nat, socket :: IsRelay(argument, port, socket) <==> socket != "" && socket == after && IsPort(before, port)
  {
    if SplitOnce(argument, '=').Some? {
      var (before, after) := SplitOnce(argument, '=').value;
      assert argument[|before|] == '=' && argument[..|before|] == before && argument[|before| + 1..] == after;
      forall port: nat, socket ensures IsRelay(argument, port, socket) <==> socket != "" && socket == after && IsPort(before, port) {
        if socket == after && IsPort(before, port) && socket != "" {
          assert IsRelayAt(argument, port, socket, |before|);
        }
        if IsRelay(argument, port, socket) {
          var k: nat :| k < |argument| && IsRelayAt(argument, port, socket, k);
          FirstIsOnly(argument, k, |before|);
        }
      }
    }
  }

  lemma FirstIsOnly(text: string, one: nat, other: nat)
    requires one < |text| && other < |text| && text[one] == '=' && text[other] == '='
    requires '=' !in text[..one] && '=' !in text[..other]
    ensures one == other
  {
    NoneBefore(text, one);
    NoneBefore(text, other);
  }

  lemma NoneBefore(text: string, k: nat)
    requires k <= |text| && '=' !in text[..k]
    ensures forall i :: 0 <= i < k ==> text[i] != '='
  {
    forall i | 0 <= i < k ensures text[i] != '=' {
      assert text[..k][i] == text[i];
    }
  }

  /** Every relay argument that is written is read as the port and the socket it was written for. */
  lemma RelayReadsBack(port: nat, socket: string)
    requires 1 <= port <= 65_535 && socket != ""
    ensures ParseRelay(RelayArgument(port, socket)) == Ok((port, socket))
  {
    assert '=' !in Decimal(port) && Decimal(port)[0] != '+';
    SplitOnceFinds(Decimal(port), '=', socket);
  }

  // ----- writing -----

  const UNSHARED: seq<string> := ["--new-session", "--die-with-parent", "--unshare-net", "--unshare-pid"]

  function Spelled(m: Mount): seq<string> {
    match m
    case RoBind(source, target) => ["--ro-bind", PathText(source), PathText(target)]
    case Bind(source, target) => ["--bind", PathText(source), PathText(target)]
    case Tmpfs(target) => ["--tmpfs", PathText(target)]
    case Dev(target) => ["--dev", PathText(target)]
    case Proc(target) => ["--proc", PathText(target)]
  }

  function Spell(mounts: seq<Mount>): seq<string> {
    Flatten(Spelled, mounts)
  }

  function Exec(path: Path): seq<string> {
    ["--exec", PathText(path)]
  }

  function Relay(relay: (nat, Path)): seq<string> {
    ["--relay", RelayArgument(relay.0, PathText(relay.1))]
  }

  function Relays(bridge: Bridge): seq<(nat, Path)> {
    [(HTTP_PORT, bridge.httpSocket), (SOCKS_PORT, bridge.socksSocket)]
  }

  function Listed(resolved: ResolvedSandbox): seq<Path> {
    if resolved.executables.Some? then resolved.executables.value else []
  }

  /** How to enter the sandbox. */
  function Entry(command: Command): seq<string> {
    ["--chdir", PathText(command.workingDirectory), "--", PathText(command.beez), "sandbox-init"]
  }

  function Program(command: Command): seq<string> {
    ["--", PathText(command.program)] + command.arguments
  }

  /** What `sandbox-init` is handed. */
  function InitArguments(resolved: ResolvedSandbox, bridge: Bridge, command: Command): seq<string> {
    Flatten(Relay, Relays(bridge)) + Flatten(Exec, Listed(resolved)) + Program(command)
  }

  /** Appends one mount, mode first. */
  method Append(arguments: seq<string>, m: Mount) returns (r: seq<string>)
    ensures r == arguments + Spelled(m)
  {
    match m
    case RoBind(source, target) => r := arguments + ["--ro-bind", PathText(source), PathText(target)];
    case Bind(source, target) => r := arguments + ["--bind", PathText(source), PathText(target)];
    case Tmpfs(target) => r := arguments + ["--tmpfs", PathText(target)];
    case Dev(target) => r := arguments + ["--dev", PathText(target)];
    case Proc(target) => r := arguments + ["--proc", PathText(target)];
  }

  lemma SpellPush(mounts: seq<Mount>, m: Mount)
    ensures Spell(mounts + [m]) == Spell(mounts) + Spelled(m)
  {
    FlattenPush(Spelled, mounts, m);
  }

  lemma SpellJoins(one: seq<Mount>, other: seq<Mount>)
    ensures Spell(one + other) == Spell(one) + Spell(other)
  {
    FlattenJoins(Spelled, one, other);
  }

  lemma SpellOne(m: Mount)
    ensures Spell([m]) == Spelled(m)
  {
    FlattenOne(Spelled, m);
  }

  method AllowArguments(arguments: seq<string>, allowed: seq<Path>) returns (r: seq<string>)
    ensures r == arguments + Spell(AllowMounts(allowed))
  {
    r := arguments;
    var i := 0;
    while i < |allowed|
      invariant i <= |allowed| && r == arguments + Spell(AllowMounts(allowed[..i]))
    {
      var m := Bind(allowed[i], allowed[i]);
      r := Append(r, m);
      SpellPush(AllowMounts(allowed[..i]), m);
      Joined(arguments, Spell(AllowMounts(allowed[..i])), Spelled(m));
      assert allowed[..i + 1][..i] == allowed[..i];
      i := i + 1;
    }
    assert allowed[..i] == allowed;
  }

  method AncestorArguments(arguments: seq<string>, t: Tree, ancestors: seq<Path>) returns (r: seq<string>)
    ensures r == arguments + Spell(AncestorMounts(t, ancestors))
  {
    r := arguments;
    var i := 0;
    while i < |ancestors|
      invariant i <= |ancestors| && r == arguments + Spell(AncestorMounts(t, ancestors[..i]))
    {
      NextAncestor(arguments, t, ancestors, i);
      if Exists(t, ancestors[i]) {
        r := Append(r, Bind(ancestors[i], ancestors[i]));
      }
      i := i + 1;
    }
    assert ancestors[..i] == ancestors;
  }

  lemma NextAncestor(arguments: seq<string>, t: Tree, ancestors: seq<Path>, i: nat)
    requires i < |ancestors|
    ensures arguments + Spell(AncestorMounts(t, ancestors[..i + 1])) ==
            arguments + Spell(AncestorMounts(t, ancestors[..i]))
            + if Exists(t, ancestors[i]) then Spelled(Bind(ancestors[i], ancestors[i])) else []
  {
    assert ancestors[..i + 1][..i] == ancestors[..i];
    var before := AncestorMounts(t, ancestors[..i]);
    SpellMore(arguments, before, if Exists(t, ancestors[i]) then [Bind(ancestors[i], ancestors[i])] else []);
    SpellOne(Bind(ancestors[i], ancestors[i]));
  }

  lemma SpellMore(arguments: seq<string>, before: seq<Mount>, more: seq<Mount>)
    ensures arguments + Spell(before + more) == arguments + Spell(before) + Spell(more)
  {
    SpellJoins(before, more);
    Joined(arguments, Spell(before), Spell(more));
  }

  method DenyArguments(arguments: seq<string>, t: Tree, resolved: ResolvedSandbox, bridge: Bridge, denied: seq<Path>) returns (r: seq<string>)
    ensures r == arguments + Spell(DenyMounts(t, resolved, bridge, denied))
  {
    r := arguments;
    var i := 0;
    while i < |denied|
      invariant i <= |denied| && r == arguments + Spell(DenyMounts(t, resolved, bridge, denied[..i]))
    {
      assert denied[..i + 1][..i] == denied[..i];
      SpellMore(arguments, DenyMounts(t, resolved, bridge, denied[..i]), DenyMount(t, resolved, bridge, denied[i]));
      r := DenyArgument(r, t, resolved, bridge, denied[i]);
      i := i + 1;
    }
    assert denied[..i] == denied;
  }

  /** Adds the mount of one denied path, if it gets any. */
  method DenyArgument(arguments: seq<string>, t: Tree, resolved: ResolvedSandbox, bridge: Bridge, denied: Path) returns (r: seq<string>)
    ensures r == arguments + Spell(DenyMount(t, resolved, bridge, denied))
  {
    r := arguments;
    if IsCovered(t, resolved, denied) {
      r := Append(r, RoBind(bridge.empty, denied));
      SpellOne(RoBind(bridge.empty, denied));
    } else if Exists(t, denied) {
      r := Append(r, RoBind(denied, denied));
      SpellOne(RoBind(denied, denied));
    }
  }

  method ReadDenyArguments(arguments: seq<string>, t: Tree, denied: seq<Path>) returns (r: seq<string>)
    ensures r == arguments + Spell(ReadDenyMounts(t, denied))
  {
    r := arguments;
    var i := 0;
    while i < |denied|
      invariant i <= |denied| && r == arguments + Spell(ReadDenyMounts(t, denied[..i]))
    {
      assert denied[..i + 1][..i] == denied[..i];
      var m := if denied[i] in t.dirs then Tmpfs(denied[i]) else RoBind(NULL_DEVICE, denied[i]);
      r := Append(r, m);
      SpellPush(ReadDenyMounts(t, denied[..i]), m);
      Joined(arguments, Spell(ReadDenyMounts(t, denied[..i])), Spelled(m));
      i := i + 1;
    }
    assert denied[..i] == denied;
  }

  method BaseArguments(resolved: ResolvedSandbox) returns (r: seq<string>)
    ensures r == UNSHARED + Spell(BaseMounts(resolved))
  {
    r := Append(UNSHARED, RoBind(ROOT, ROOT));
    r := Append(r, Dev(DEV));
    r := Append(r, Proc(PROC));
    ThreeSpell(UNSHARED, RoBind(ROOT, ROOT), Dev(DEV), Proc(PROC));
    var first := [RoBind(ROOT, ROOT), Dev(DEV), Proc(PROC)];
    SpellPush(first, Tmpfs(TMP));
    Joined(UNSHARED, Spell(first), Spelled(Tmpfs(TMP)));
    if TMP in resolved.writeAllow {
      assert BaseMounts(resolved) == first;
    } else {
      r := Append(r, Tmpfs(TMP));
    }
  }

  lemma ThreeSpell(arguments: seq<string>, a: Mount, b: Mount, c: Mount)
    ensures arguments + Spelled(a) + Spelled(b) + Spelled(c) == arguments + Spell([a, b, c])
  {
    SpellOne(a);
    SpellPush([a], b);
    SpellPush([a] + [b], c);
    assert [a] + [b] + [c] == [a, b, c];
    Joined(arguments, Spelled(a), Spelled(b));
    Joined(arguments, Spelled(a) + Spelled(b), Spelled(c));
  }

  /** The mounts of the list in order, after the flags that unshare. */
  method MountArguments(t: Tree, resolved: ResolvedSandbox, bridge: Bridge) returns (r: seq<string>)
    ensures r == UNSHARED + Spell(MountList(t, resolved, bridge))
  {
    ghost var mounts := BaseMounts(resolved);
    r := BaseArguments(resolved);
    r := AllowArguments(r, resolved.writeAllow);
    SpellGroup(mounts, AllowMounts(resolved.writeAllow));
    mounts := mounts + AllowMounts(resolved.writeAllow);
    r := AncestorArguments(r, t, ProtectedAncestors(resolved));
    SpellGroup(mounts, AncestorMounts(t, ProtectedAncestors(resolved)));
    mounts := mounts + AncestorMounts(t, ProtectedAncestors(resolved));
    r := DenyArguments(r, t, resolved, bridge, resolved.writeDeny);
    SpellGroup(mounts, DenyMounts(t, resolved, bridge, resolved.writeDeny));
    mounts := mounts + DenyMounts(t, resolved, bridge, resolved.writeDeny);
    r := ReadDenyArguments(r, t, resolved.readDeny);
    SpellGroup(mounts, ReadDenyMounts(t, resolved.readDeny));
    mounts := mounts + ReadDenyMounts(t, resolved.readDeny);
    r := Append(r, Bind(bridge.directory, bridge.directory));
    SpellPush(mounts, Bind(bridge.directory, bridge.directory));
    Joined(UNSHARED, Spell(mounts), Spelled(Bind(bridge.directory, bridge.directory)));
  }

  lemma SpellGroup(mounts: seq<Mount>, group: seq<Mount>)
    ensures UNSHARED + Spell(mounts + group) == UNSHARED + Spell(mounts) + Spell(group)
  {
    SpellJoins(mounts, group);
    Joined(UNSHARED, Spell(mounts), Spell(group));
  }

  method RelayArguments(arguments: seq<string>, bridge: Bridge) returns (r: seq<string>)
    ensures r == arguments + Flatten(Relay, Relays(bridge))
  {
    var relays := Relays(bridge);
    r := arguments;
    var i := 0;
    assert relays[..0] == [];
    while i < |relays|
      invariant i <= |relays| && r == arguments + Flatten(Relay, relays[..i])
    {
      r := r + ["--relay", RelayArgument(relays[i].0, PathText(relays[i].1))];
      FlattenNext(arguments, Relay, relays, i);
      i := i + 1;
    }
    assert relays[..i] == relays;
  }

  method ExecArguments(arguments: seq<string>, paths: seq<Path>) returns (r: seq<string>)
    ensures r == arguments + Flatten(Exec, paths)
  {
    r := arguments;
    var i := 0;
    assert paths[..0] == [];
    while i < |paths|
      invariant i <= |paths| && r == arguments + Flatten(Exec, paths[..i])
    {
      r := r + ["--exec", PathText(paths[i])];
      FlattenNext(arguments, Exec, paths, i);
      i := i + 1;
    }
    assert paths[..i] == paths;
  }

  // ----- what `bwrap` reads -----

  /** The options of `bwrap` taken one after another: flags, mounts, the directory to start in, and the command. */
  datatype Setup = Setup(flags: seq<string>, mounts: seq<Mount>, workingDirectory: Option<Path>, command: seq<string>)

  predicate IsFlag(word: string) {
    word == "--new-session" || word == "--die-with-parent" || word == "--unshare-net" || word == "--unshare-pid"
  }

  /** The mount that a word and two paths ask for. */
  function BindOf(word: string, source: Path, target: Path): Option<Mount> {
    if word == "--ro-bind" then Some(RoBind(source, target))
    else if word == "--bind" then Some(Bind(source, target))
    else None
  }

  /** The mount that a word and one path ask for. */
  function FreshOf(word: string, target: Path): Option<Mount> {
    if word == "--tmpfs" then Some(Tmpfs(target))
    else if word == "--dev" then Some(Dev(target))
    else if word == "--proc" then Some(Proc(target))
    else None
  }

  function ReadBwrap(arguments: seq<string>): Option<Setup>
    decreases |arguments|
  {
    if arguments == [] then None
    else if arguments[0] == "--" then Some(Setup([], [], None, arguments[1..]))
    else if IsFlag(arguments[0]) then WithFlag(arguments[0], ReadBwrap(arguments[1..]))
    else if |arguments| >= 3 && BindOf(arguments[0], ROOT, ROOT).Some? then
      WithMount(BindOf(arguments[0], ReadPath(arguments[1]), ReadPath(arguments[2])).value, ReadBwrap(arguments[3..]))
    else if |arguments| >= 2 && FreshOf(arguments[0], ROOT).Some? then
      WithMount(FreshOf(arguments[0], ReadPath(arguments[1])).value, ReadBwrap(arguments[2..]))
    else if |arguments| >= 2 && arguments[0] == "--chdir" then WithDirectory(ReadPath(arguments[1]), ReadBwrap(arguments[2..]))
    else None
  }

  function WithFlag(flag: string, setup: Option<Setup>): Option<Setup> {
    if setup.None? then None else Some(setup.value.(flags := [flag] + setup.value.flags))
  }

  function WithMount(m: Mount, setup: Option<Setup>): Option<Setup> {
    if setup.None? then None else Some(setup.value.(mounts := [m] + setup.value.mounts))
  }

  /** The last directory counts. */
  function WithDirectory(path: Path, setup: Option<Setup>): Option<Setup> {
    if setup.None? || setup.value.workingDirectory.Some? then setup else Some(setup.value.(workingDirectory := Some(path)))
  }

  /** No word is another one. */
  lemma WordsDiffer()
    ensures !IsFlag("--ro-bind") && !IsFlag("--bind") && !IsFlag("--tmpfs") && !IsFlag("--dev") && !IsFlag("--proc") && !IsFlag("--chdir")
    ensures "--bind" != "--proc" && "--tmpfs" != "--chdir"
  {
    assert "--bind"[2] != "--proc"[2] && "--tmpfs"[2] != "--chdir"[2];
  }

  predicate IsBind(word: string) {
    word != "--" && !IsFlag(word) && BindOf(word, ROOT, ROOT).Some?
  }

  predicate IsFresh(word: string) {
    word != "--" && !IsFlag(word) && BindOf(word, ROOT, ROOT).None? && FreshOf(word, ROOT).Some?
  }

  lemma BindsAreWords()
    ensures IsBind("--ro-bind") && IsBind("--bind")
  {
    WordsDiffer();
  }

  lemma FreshAreWords()
    ensures IsFresh("--tmpfs") && IsFresh("--dev") && IsFresh("--proc")
    ensures FreshOf("--proc", ROOT) == Some(Proc(ROOT))
  {
    WordsDiffer();
  }

  lemma BindReads(word: string, source: Path, target: Path, tail: seq<string>)
    requires IsBind(word)
    ensures ReadBwrap([word, PathText(source), PathText(target)] + tail) == WithMount(BindOf(word, source, target).value, ReadBwrap(tail))
  {
    PathReadsBack(source);
    PathReadsBack(target);
    assert ([word, PathText(source), PathText(target)] + tail)[3..] == tail;
  }

  lemma FreshReads(word: string, target: Path, tail: seq<string>)
    requires IsFresh(word)
    ensures ReadBwrap([word, PathText(target)] + tail) == WithMount(FreshOf(word, target).value, ReadBwrap(tail))
  {
    PathReadsBack(target);
    assert ([word, PathText(target)] + tail)[2..] == tail;
  }

  lemma OneMountReads(m: Mount, rest: seq<string>)
    ensures ReadBwrap(Spelled(m) + rest) == WithMount(m, ReadBwrap(rest))
  {
    BindsAreWords();
    FreshAreWords();
    match m
    case RoBind(source, target) => BindReads("--ro-bind", source, target, rest);
    case Bind(source, target) => BindReads("--bind", source, target, rest);
    case Tmpfs(target) => FreshReads("--tmpfs", target, rest);
    case Dev(target) => FreshReads("--dev", target, rest);
    case Proc(target) => FreshReads("--proc", target, rest);
  }

  lemma {:induction false} MountsRead(mounts: seq<Mount>, rest: seq<string>)
    requires ReadBwrap(rest).Some?
    ensures ReadBwrap(Spell(mounts) + rest) == Some(ReadBwrap(rest).value.(mounts := mounts + ReadBwrap(rest).value.mounts))
  {
    if mounts == [] {
      NothingInFront(rest, ReadBwrap(rest).value.mounts);
    } else {
      FlattenFirst(Spelled, mounts, rest);
      MountsRead(mounts[1..], rest);
      OneMountReads(mounts[0], Spell(mounts[1..]) + rest);
      FirstInFront(mounts, ReadBwrap(rest).value.mounts);
    }
  }

  lemma NothingInFront<T>(rest: seq<string>, read: seq<T>)
    ensures [] + rest == rest && [] + read == read
  {
  }

  lemma FirstInFront<T>(items: seq<T>, read: seq<T>)
    requires items != []
    ensures [items[0]] + (items[1..] + read) == items + read
  {
  }

  lemma DirectoryReads(word: string, path: Path, tail: seq<string>)
    requires word == "--chdir" && word != "--" && !IsFlag(word) && BindOf(word, ROOT, ROOT).None? && FreshOf(word, ROOT).None?
    ensures ReadBwrap([word, PathText(path)] + tail) == WithDirectory(path, ReadBwrap(tail))
  {
    PathReadsBack(path);
    assert ([word, PathText(path)] + tail)[2..] == tail;
  }

  lemma CommandReads(tail: seq<string>)
    ensures ReadBwrap(["--"] + tail) == Some(Setup([], [], None, tail))
  {
    assert (["--"] + tail)[1..] == tail;
  }

  lemma EntryThenRest(chdir: string, directory: string, separator: string, beez: string, init: string, rest: seq<string>)
    ensures [chdir, directory, separator, beez, init] + rest == [chdir, directory] + ([separator] + ([beez, init] + rest))
  {
  }

  lemma EntryReads(command: Command, rest: seq<string>)
    ensures ReadBwrap(Entry(command) + rest)
         == Some(Setup([], [], Some(command.workingDirectory), [PathText(command.beez), "sandbox-init"] + rest))
  {
    var started := [PathText(command.beez), "sandbox-init"] + rest;
    EntryThenRest("--chdir", PathText(command.workingDirectory), "--", PathText(command.beez), "sandbox-init", rest);
    CommandReads(started);
    WordsDiffer();
    DirectoryReads("--chdir", command.workingDirectory, ["--"] + started);
  }

  lemma FlagsRead(rest: seq<string>)
    requires ReadBwrap(rest).Some?
    ensures ReadBwrap(UNSHARED + rest) == Some(ReadBwrap(rest).value.(flags := UNSHARED + ReadBwrap(rest).value.flags))
  {
    FourFlagsRead("--new-session", "--die-with-parent", "--unshare-net", "--unshare-pid", rest);
  }

  lemma FourFlagsRead(a: string, b: string, c: string, d: string, rest: seq<string>)
    requires IsFlag(a) && IsFlag(b) && IsFlag(c) && IsFlag(d) && ReadBwrap(rest).Some?
    ensures ReadBwrap([a, b, c, d] + rest) == Some(ReadBwrap(rest).value.(flags := [a, b, c, d] + ReadBwrap(rest).value.flags))
  {
    FlagReads(d, rest);
    FlagReads(c, [d] + rest);
    FlagReads(b, [c] + ([d] + rest));
    FlagReads(a, [b] + ([c] + ([d] + rest)));
    OneByOne(a, b, c, d, rest);
    OneByOne(a, b, c, d, ReadBwrap(rest).value.flags);
  }

  lemma OneByOne(a: string, b: string, c: string, d: string, rest: seq<string>)
    ensures [a, b, c, d] + rest == [a] + ([b] + ([c] + ([d] + rest)))
  {
  }

  lemma FlagReads(flag: string, rest: seq<string>)
    requires IsFlag(flag)
    ensures ReadBwrap([flag] + rest) == WithFlag(flag, ReadBwrap(rest))
  {
    assert ([flag] + rest)[1..] == rest;
  }

  // ----- what `sandbox-init` reads -----

  /** The relays to start, the programs that may run, and the program to become. */
  datatype Start = Start(relays: seq<(nat, Path)>, executables: seq<Path>, command: seq<string>)

  function ReadInit(arguments: seq<string>): Option<Start>
    decreases |arguments|
  {
    if arguments == [] then None
    else if arguments[0] == "--" then Some(Start([], [], arguments[1..]))
    else if |arguments| >= 2 && arguments[0] == "--relay" then
      var relay := ParseRelay(arguments[1]);
      if relay.Err? then None else WithRelay((relay.value.0, ReadPath(relay.value.1)), ReadInit(arguments[2..]))
    else if |arguments| >= 2 && arguments[0] == "--exec" then WithExecutable(ReadPath(arguments[1]), ReadInit(arguments[2..]))
    else None
  }

  function WithRelay(relay: (nat, Path), start: Option<Start>): Option<Start> {
    if start.None? then None else Some(start.value.(relays := [relay] + start.value.relays))
  }

  function WithExecutable(path: Path, start: Option<Start>): Option<Start> {
    if start.None? then None else Some(start.value.(executables := [path] + start.value.executables))
  }

  lemma RelayReads(relay: (nat, Path), rest: seq<string>)
    requires 1 <= relay.0 <= 65_535
    ensures ReadInit(Relay(relay) + rest) == WithRelay(relay, ReadInit(rest))
  {
    RelayReadsBack(relay.0, PathText(relay.1));
    PathReadsBack(relay.1);
    assert (Relay(relay) + rest)[2..] == rest;
  }

  lemma {:induction false} RelaysRead(relays: seq<(nat, Path)>, rest: seq<string>)
    requires ReadInit(rest).Some? && forall i :: 0 <= i < |relays| ==> 1 <= relays[i].0 <= 65_535
    ensures ReadInit(Flatten(Relay, relays) + rest) == Some(ReadInit(rest).value.(relays := relays + ReadInit(rest).value.relays))
  {
    if relays == [] {
      NothingInFront(rest, ReadInit(rest).value.relays);
    } else {
      FlattenFirst(Relay, relays, rest);
      RelaysRead(relays[1..], rest);
      RelayReads(relays[0], Flatten(Relay, relays[1..]) + rest);
      FirstInFront(relays, ReadInit(rest).value.relays);
    }
  }

  lemma ExecReads(path: Path, rest: seq<string>)
    ensures ReadInit(Exec(path) + rest) == WithExecutable(path, ReadInit(rest))
  {
    PathReadsBack(path);
    assert (Exec(path) + rest)[2..] == rest;
  }

  lemma {:induction false} ExecsRead(paths: seq<Path>, rest: seq<string>)
    requires ReadInit(rest).Some?
    ensures ReadInit(Flatten(Exec, paths) + rest) == Some(ReadInit(rest).value.(executables := paths + ReadInit(rest).value.executables))
  {
    if paths == [] {
      NothingInFront(rest, ReadInit(rest).value.executables);
    } else {
      FlattenFirst(Exec, paths, rest);
      ExecsRead(paths[1..], rest);
      ExecReads(paths[0], Flatten(Exec, paths[1..]) + rest);
      FirstInFront(paths, ReadInit(rest).value.executables);
    }
  }

  lemma InitReads(resolved: ResolvedSandbox, bridge: Bridge, command: Command)
    ensures ReadInit(InitArguments(resolved, bridge, command)) == Some(Start(Relays(bridge), Listed(resolved), [PathText(command.program)] + command.arguments))
  {
    var last, execs := Program(command), Flatten(Exec, Listed(resolved));
    assert last[1..] == [PathText(command.program)] + command.arguments;
    ExecsRead(Listed(resolved), last);
    assert Listed(resolved) + [] == Listed(resolved);
    RelaysRead(Relays(bridge), execs + last);
    assert Relays(bridge) + [] == Relays(bridge);
    Joined(Flatten(Relay, Relays(bridge)), execs, last);
  }

  // ----- the whole command line -----

  /**
   * Read by `bwrap` and then by `sandbox-init`, the arguments cut the program off from the network, the processes, the
   * terminal and the life of the host, and say the mount list, the two relays, the listed programs and the command.
   */
  predicate Enters(arguments: seq<string>, t: Tree, resolved: ResolvedSandbox, bridge: Bridge, command: Command) {
    var setup := ReadBwrap(arguments);
    && setup.Some?
    && setup.value.flags == ["--new-session", "--die-with-parent", "--unshare-net", "--unshare-pid"]
    && setup.value.mounts == MountList(t, resolved, bridge)
    && setup.value.workingDirectory == Some(command.workingDirectory)
    && |setup.value.command| >= 2 && ReadPath(setup.value.command[0]) == command.beez && setup.value.command[1] == "sandbox-init"
    && StartsProgram(setup.value.command[2..], resolved, bridge, command)
  }

  predicate StartsProgram(arguments: seq<string>, resolved: ResolvedSandbox, bridge: Bridge, command: Command) {
    var start := ReadInit(arguments);
    && start.Some?
    && start.value.relays == [(3128, bridge.httpSocket), (1080, bridge.socksSocket)]
    && start.value.executables == (match resolved.executables case None => [] case Some(paths) => paths)
    && start.value.command != [] && ReadPath(start.value.command[0]) == command.program && start.value.command[1..] == command.arguments
  }

  /** Everything the arguments are written for is read back from them, and nothing else. */
  lemma ArgumentsReadBack(t: Tree, resolved: ResolvedSandbox, bridge: Bridge, command: Command)
    ensures Enters(UNSHARED + Spell(MountList(t, resolved, bridge)) + Entry(command) + InitArguments(resolved, bridge, command),
                   t, resolved, bridge, command)
  {
    var mounts, inits := MountList(t, resolved, bridge), InitArguments(resolved, bridge, command);
    EntryReads(command, inits);
    MountsRead(mounts, Entry(command) + inits);
    assert mounts + [] == mounts;
    FlagsRead(Spell(mounts) + (Entry(command) + inits));
    assert UNSHARED + [] == UNSHARED;
    Joined(UNSHARED, Spell(mounts), Entry(command) + inits);
    Joined(UNSHARED + Spell(mounts), Entry(command), inits);
    assert ([PathText(command.beez), "sandbox-init"] + inits)[2..] == inits;
    PathReadsBack(command.beez);
    PathReadsBack(command.program);
    InitReads(resolved, bridge, command);
  }

  /** Every `bwrap` argument: the flags, the mounts, and how to enter the sandbox and what to run in it. */
  method BwrapArguments(t: Tree, resolved: ResolvedSandbox, bridge: Bridge, command: Command) returns (r: seq<string>)
    ensures Enters(r, t, resolved, bridge, command)
    ensures r == UNSHARED + Spell(MountList(t, resolved, bridge)) + Entry(command) + InitArguments(resolved, bridge, command)
  {
    r := MountArguments(t, resolved, bridge);
    r := r + Entry(command);
    ghost var entered := r;
    r := RelayArguments(r, bridge);
    r := ExecArguments(r, if resolved.executables.Some? then resolved.executables.value else []);
    r := r + Program(command);
    ThreeAppended(entered, Flatten(Relay, Relays(bridge)), Flatten(Exec, Listed(resolved)), Program(command));
    ArgumentsReadBack(t, resolved, bridge, command);
  }

  lemma ThreeAppended(start: seq<string>, a: seq<string>, b: seq<string>, c: seq<string>)
    ensures start + a + b + c == start + (a + b + c)
  {
  }
}
