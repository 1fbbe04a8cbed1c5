/** The Seatbelt profile of one resolved sandbox, where the last rule that matches decides. */
module Seatbelt {
  import opened Outcomes
  import opened Paths
  import Splitting
  import opened Sandboxes
  import opened MaskTrees
  import opened Mounts

  // ----- rules -----

  datatype Operation =
    | Everything | FileRead | FileReadMetadata | FileWrite | FileWriteUnlink | FileIoctl
    | ProcessExec | ProcessFork | ProcessInfo | SendSignal | SysctlRead | MachLookup | IpcPosix | PseudoTty | UserPreferenceRead
    | NetworkBind | NetworkInbound | NetworkOutbound

  /** A port of the local host; no port is any port. */
  datatype Filter =
    | Subpath(path: Path) | Literal(path: Path) | TerminalDevice | FileDescriptor
    | SameSandbox | LocalPort(port: Option<nat>) | RemotePort(port: Option<nat>)

  /** Allows or denies an operation on what one of its filters matches; without a filter, on everything. */
  datatype Rule = Rule(allow: bool, operation: Operation, filters: seq<Filter>)

  function Device(name: Name): Filter {
    Literal(["dev", name])
  }

  function DeviceFilters(): seq<Filter> {
    [Device("null"), Device("zero"), Device("tty"), Device("ptmx"), Device("dtracehelper"), TerminalDevice, FileDescriptor]
  }

  function Subpaths(paths: seq<Path>): (r: seq<Filter>)
    ensures |r| == |paths| && forall i :: 0 <= i < |r| ==> r[i] == Subpath(paths[i])
  {
    if paths == [] then [] else Subpaths(paths[..|paths| - 1]) + [Subpath(paths[|paths| - 1])]
  }

  function Literals(paths: seq<Path>): (r: seq<Filter>)
    ensures |r| == |paths| && forall i :: 0 <= i < |r| ==> r[i] == Literal(paths[i])
  {
    if paths == [] then [] else Literals(paths[..|paths| - 1]) + [Literal(paths[|paths| - 1])]
  }

  /** A rule over no paths is not written at all. */
  function WrittenRule(allow: bool, operation: Operation, filters: seq<Filter>): seq<Rule> {
    if filters == [] then [] else [Rule(allow, operation, filters)]
  }

  function Everywhere(allow: bool, operation: Operation): Rule {
    Rule(allow, operation, [])
  }

  function OpeningRules(): seq<Rule> {
    [ Everywhere(false, Everything),
      Everywhere(true, ProcessFork),
      Rule(true, ProcessInfo, [SameSandbox]),
      Rule(true, SendSignal, [SameSandbox]),
      Everywhere(true, SysctlRead),
      Everywhere(true, MachLookup),
      Everywhere(true, IpcPosix),
      Everywhere(true, PseudoTty),
      Everywhere(true, UserPreferenceRead),
      Everywhere(true, FileIoctl),
      Everywhere(true, FileRead) ]
  }

  function NetworkRules(localhost: bool, httpPort: nat, socksPort: nat): seq<Rule> {
    [ Rule(true, NetworkBind, [LocalPort(None)]),
      Rule(true, NetworkInbound, [LocalPort(None)]),
      Rule(true, NetworkOutbound, [RemotePort(Some(httpPort)), RemotePort(Some(socksPort))]) ]
    + if localhost then [Rule(true, NetworkOutbound, [RemotePort(None)])] else []
  }

  function ExecFilter(t: Tree, p: Path): Filter {
    if p in t.dirs then Subpath(p) else Literal(p)
  }

  function ExecFilters(t: Tree, paths: seq<Path>): (r: seq<Filter>)
    ensures |r| == |paths| && forall i :: 0 <= i < |r| ==> r[i] == ExecFilter(t, paths[i])
  {
    if paths == [] then [] else ExecFilters(t, paths[..|paths| - 1]) + [ExecFilter(t, paths[|paths| - 1])]
  }

  function ExecRule(t: Tree, resolved: ResolvedSandbox): Rule {
    Rule(true, ProcessExec, if resolved.executables.Some? then ExecFilters(t, resolved.executables.value) else [])
  }

  /** Reading is allowed but for the denied paths, whose metadata may still be read. */
  function ReadRules(resolved: ResolvedSandbox): seq<Rule> {
    OpeningRules() + (WrittenRule(false, FileRead, Subpaths(resolved.readDeny)) + [Everywhere(true, FileReadMetadata)])
  }

  function AllowRules(resolved: ResolvedSandbox): seq<Rule> {
    WrittenRule(true, FileWrite, Subpaths(resolved.writeAllow)) + [Rule(true, FileWrite, DeviceFilters())]
  }

  function DenyRules(resolved: ResolvedSandbox): seq<Rule> {
    WrittenRule(false, FileWrite, Subpaths(resolved.writeDeny))
    + WrittenRule(false, FileWriteUnlink, Literals(ProtectedAncestors(resolved)))
  }

  function ClosingRules(t: Tree, resolved: ResolvedSandbox, httpPort: nat, socksPort: nat): seq<Rule> {
    NetworkRules(resolved.localhost, httpPort, socksPort) + [ExecRule(t, resolved)]
  }

  function Rules(t: Tree, resolved: ResolvedSandbox, httpPort: nat, socksPort: nat): seq<Rule> {
    ReadRules(resolved) + (AllowRules(resolved) + (DenyRules(resolved) + ClosingRules(t, resolved, httpPort, socksPort)))
  }

  // ----- what the rules mean -----

  /**
   * What a task tries to do: something with a path, something with a process of its own sandbox or another one,
   * something with a port of the local host or of another one, or anything else.
   */
  datatype Access =
    | ReadData | ReadMetadata | Write | Unlink | Execute | Ioctl
    | Inspect(same: bool) | Signal(same: bool)
    | BindPort(local: bool, port: nat) | AcceptAt(local: bool, port: nat) | ConnectTo(local: bool, port: nat)
    | Fork | ReadSysctl | LookUpService | ShareMemory | OpenPseudoTty | ReadPreferences
    | Other

  predicate Governs(operation: Operation, access: Access) {
    match operation
    case Everything => true
    case FileRead => access == ReadData || access == ReadMetadata
    case FileReadMetadata => access == ReadMetadata
    case FileWrite => access == Write || access == Unlink
    case FileWriteUnlink => access == Unlink
    case FileIoctl => access == Ioctl
    case ProcessExec => access == Execute
    case ProcessFork => access == Fork
    case ProcessInfo => access.Inspect?
    case SendSignal => access.Signal?
    case SysctlRead => access == ReadSysctl
    case MachLookup => access == LookUpService
    case IpcPosix => access == ShareMemory
    case PseudoTty => access == OpenPseudoTty
    case UserPreferenceRead => access == ReadPreferences
    case NetworkBind => access.BindPort?
    case NetworkInbound => access.AcceptAt?
    case NetworkOutbound => access.ConnectTo?
  }

  predicate IsNumbered(text: string, prefix: string) {
    prefix <= text && Splitting.IsNumber(text[|prefix|..])
  }

  predicate MatchesFilter(filter: Filter, access: Access, x: Path) {
    match filter
    case Subpath(path) => Contains(path, x)
    case Literal(path) => x == path
    case TerminalDevice => |x| == 2 && x[0] == "dev" && IsNumbered(x[1], "ttys")
    case FileDescriptor => |x| == 3 && x[0] == "dev" && x[1] == "fd" && Splitting.IsNumber(x[2])
    case SameSandbox => (access.Inspect? || access.Signal?) && access.same
    case LocalPort(port) => (access.BindPort? || access.AcceptAt?) && access.local && (port.None? || port.value == access.port)
    case RemotePort(port) => access.ConnectTo? && access.local && (port.None? || port.value == access.port)
  }

  predicate MatchesFilters(filters: seq<Filter>, access: Access, x: Path) {
    exists i :: 0 <= i < |filters| && MatchesFilter(filters[i], access, x)
  }

  predicate Applies(rule: Rule, access: Access, x: Path) {
    Governs(rule.operation, access) && (rule.filters == [] || MatchesFilters(rule.filters, access, x))
  }

  /** What the last rule that applies says; nothing when none does. */
  function Verdict(rules: seq<Rule>, access: Access, x: Path): Option<bool> {
    if rules == [] then None
    else if Applies(rules[|rules| - 1], access, x) then Some(rules[|rules| - 1].allow)
    else Verdict(rules[..|rules| - 1], access, x)
  }

  lemma {:induction false} LaterRulesDecide(one: seq<Rule>, other: seq<Rule>, access: Access, x: Path)
    ensures Verdict(one + other, access, x) == if Verdict(other, access, x).Some? then Verdict(other, access, x) else Verdict(one, access, x)
  {
    var all := one + other;
    if other == [] {
      assert all == one;
    } else {
      assert all[..|all| - 1] == one + other[..|other| - 1];
      LaterRulesDecide(one, other[..|other| - 1], access, x);
    }
  }

  lemma OneRuleDecides(rule: Rule, access: Access, x: Path)
    ensures Verdict([rule], access, x) == if Applies(rule, access, x) then Some(rule.allow) else None
  {
    assert [rule][..0] == [];
  }

  lemma WrittenRuleDecides(allow: bool, operation: Operation, filters: seq<Filter>, access: Access, x: Path)
    ensures Verdict(WrittenRule(allow, operation, filters), access, x) ==
            if Governs(operation, access) && MatchesFilters(filters, access, x) then Some(allow) else None
  {
    OneRuleDecides(Rule(allow, operation, filters), access, x);
  }

  lemma {:induction false} OthersDoNotDecide(rules: seq<Rule>, access: Access, x: Path)
    requires forall i :: 0 <= i < |rules| ==> !Applies(rules[i], access, x)
    ensures Verdict(rules, access, x) == None
  {
    if rules != [] {
      OthersDoNotDecide(rules[..|rules| - 1], access, x);
    }
  }

  /** The rule applies, and none after it does. */
  lemma {:induction false} LastDecides(rules: seq<Rule>, i: nat, access: Access, x: Path)
    requires i < |rules| && Applies(rules[i], access, x)
    requires forall j :: i < j < |rules| ==> !Applies(rules[j], access, x)
    ensures Verdict(rules, access, x) == Some(rules[i].allow)
  {
    if i < |rules| - 1 {
      LastDecides(rules[..|rules| - 1], i, access, x);
    }
  }

  lemma OneFilterMatches(filter: Filter, access: Access, x: Path)
    ensures MatchesFilters([filter], access, x) <==> MatchesFilter(filter, access, x)
  {
    if MatchesFilter(filter, access, x) {
      assert MatchesFilter([filter][0], access, x);
    }
  }

  lemma TwoFiltersMatch(one: Filter, other: Filter, access: Access, x: Path)
    ensures MatchesFilters([one, other], access, x) <==> MatchesFilter(one, access, x) || MatchesFilter(other, access, x)
  {
    var filters := [one, other];
    assert filters[0] == one && filters[1] == other;
  }

  /** What every task may do: read, and use the system as a program does, with processes of its own sandbox only. */
  predicate IsOpen(access: Access) {
    match access
    case ReadData => true
    case ReadMetadata => true
    case Ioctl => true
    case Inspect(same) => same
    case Signal(same) => same
    case Fork => true
    case ReadSysctl => true
    case LookUpService => true
    case ShareMemory => true
    case OpenPseudoTty => true
    case ReadPreferences => true
    case _ => false
  }

  lemma OpeningDecides(access: Access, x: Path)
    ensures Verdict(OpeningRules(), access, x) == Some(IsOpen(access))
  {
    var rules, i := OpeningRules(), OpeningRule(access);
    forall j | i < j < |rules| ensures !Applies(rules[j], access, x) {
      OpeningApplies(access, x, j);
    }
    OpeningApplies(access, x, i);
    LastDecides(rules, i, access, x);
  }

  /** Each opening rule is about an access of its own, but for the first one. */
  lemma OpeningApplies(access: Access, x: Path, j: nat)
    requires j < 11
    ensures |OpeningRules()| == 11
    ensures j > OpeningRule(access) ==> !Applies(OpeningRules()[j], access, x)
    ensures j == OpeningRule(access) ==> Applies(OpeningRules()[j], access, x) && OpeningRules()[j].allow == IsOpen(access)
  {
    OpeningRuleAt(j);
    OpeningRuleApplies(OpeningRules()[j], access, x, j);
  }

  lemma OpeningRuleApplies(rule: Rule, access: Access, x: Path, j: nat)
    requires j < 11 && rule == Rule(j > 0, OpeningOperation(j), if j == 2 || j == 3 then [SameSandbox] else [])
    ensures j > OpeningRule(access) ==> !Applies(rule, access, x)
    ensures j == OpeningRule(access) ==> Applies(rule, access, x) && rule.allow == IsOpen(access)
  {
    OneFilterMatches(SameSandbox, access, x);
  }

  function OpeningOperation(j: nat): Operation {
    match j
    case 1 => ProcessFork
    case 2 => ProcessInfo
    case 3 => SendSignal
    case 4 => SysctlRead
    case 5 => MachLookup
    case 6 => IpcPosix
    case 7 => PseudoTty
    case 8 => UserPreferenceRead
    case 9 => FileIoctl
    case 10 => FileRead
    case _ => Everything
  }

  lemma OpeningRuleAt(j: nat)
    requires j < 11
    ensures |OpeningRules()| == 11
    ensures OpeningRules()[j] == Rule(j > 0, OpeningOperation(j), if j == 2 || j == 3 then [SameSandbox] else [])
  {
  }

  /** Which of the opening rules decides. */
  function OpeningRule(access: Access): nat {
    match access
    case ReadData => 10
    case ReadMetadata => 10
    case Ioctl => 9
    case Inspect(same) => if same then 2 else 0
    case Signal(same) => if same then 3 else 0
    case Fork => 1
    case ReadSysctl => 4
    case LookUpService => 5
    case ShareMemory => 6
    case OpenPseudoTty => 7
    case ReadPreferences => 8
    case _ => 0
  }

  lemma SubpathsMatch(paths: seq<Path>, access: Access, x: Path)
    ensures MatchesFilters(Subpaths(paths), access, x) <==> IsUnder(paths, x)
  {
    var filters := Subpaths(paths);
    assert forall i :: 0 <= i < |paths| ==> (MatchesFilter(filters[i], access, x) <==> Contains(paths[i], x));
  }

  lemma LiteralsMatch(paths: seq<Path>, access: Access, x: Path)
    ensures MatchesFilters(Literals(paths), access, x) <==> x in paths
  {
    var filters := Literals(paths);
    assert forall i :: 0 <= i < |paths| ==> (MatchesFilter(filters[i], access, x) <==> x == paths[i]);
  }

  /** The devices every program writes to: the null device and its like, terminals and open descriptors. */
  predicate IsDevice(x: Path) {
    || x == ["dev", "null"] || x == ["dev", "zero"] || x == ["dev", "tty"] || x == ["dev", "ptmx"] || x == ["dev", "dtracehelper"]
    || (|x| == 2 && x[0] == "dev" && IsNumbered(x[1], "ttys"))
    || (|x| == 3 && x[0] == "dev" && x[1] == "fd" && Splitting.IsNumber(x[2]))
  }

  lemma DevicesMatch(access: Access, x: Path)
    ensures MatchesFilters(DeviceFilters(), access, x) <==> IsDevice(x)
  {
    var filters := DeviceFilters();
    assert filters[0] == Literal(["dev", "null"]) && filters[1] == Literal(["dev", "zero"]) && filters[2] == Literal(["dev", "tty"]);
    assert filters[3] == Literal(["dev", "ptmx"]) && filters[4] == Literal(["dev", "dtracehelper"]);
    assert filters[5] == TerminalDevice && filters[6] == FileDescriptor;
  }

  lemma ReadRulesDecide(resolved: ResolvedSandbox, access: Access, x: Path)
    ensures Verdict(ReadRules(resolved), access, x) ==
            Some(IsOpen(access) && !(access == ReadData && IsUnder(resolved.readDeny, x)))
  {
    var denied, metadata := WrittenRule(false, FileRead, Subpaths(resolved.readDeny)), [Everywhere(true, FileReadMetadata)];
    OpeningDecides(access, x);
    WrittenRuleDecides(false, FileRead, Subpaths(resolved.readDeny), access, x);
    SubpathsMatch(resolved.readDeny, access, x);
    OneRuleDecides(metadata[0], access, x);
    LaterRulesDecide(denied, metadata, access, x);
    LaterRulesDecide(OpeningRules(), denied + metadata, access, x);
  }

  predicate IsWriting(access: Access) {
    access == Write || access == Unlink
  }

  lemma AllowRulesDecide(resolved: ResolvedSandbox, access: Access, x: Path)
    ensures Verdict(AllowRules(resolved), access, x) ==
            if IsWriting(access) && (IsUnder(resolved.writeAllow, x) || IsDevice(x)) then Some(true) else None
  {
    var allowed, devices := WrittenRule(true, FileWrite, Subpaths(resolved.writeAllow)), [Rule(true, FileWrite, DeviceFilters())];
    WrittenRuleDecides(true, FileWrite, Subpaths(resolved.writeAllow), access, x);
    SubpathsMatch(resolved.writeAllow, access, x);
    DevicesMatch(access, x);
    OneRuleDecides(devices[0], access, x);
    LaterRulesDecide(allowed, devices, access, x);
  }

  lemma DenyRulesDecide(resolved: ResolvedSandbox, access: Access, x: Path)
    ensures Verdict(DenyRules(resolved), access, x) ==
            if IsWriting(access) && IsUnder(resolved.writeDeny, x) then Some(false)
            else if access == Unlink && x in ProtectedAncestors(resolved) then Some(false)
            else None
  {
    var ancestors := ProtectedAncestors(resolved);
    WrittenRuleDecides(false, FileWrite, Subpaths(resolved.writeDeny), access, x);
    SubpathsMatch(resolved.writeDeny, access, x);
    WrittenRuleDecides(false, FileWriteUnlink, Literals(ancestors), access, x);
    LiteralsMatch(ancestors, access, x);
    LaterRulesDecide(WrittenRule(false, FileWrite, Subpaths(resolved.writeDeny)), WrittenRule(false, FileWriteUnlink, Literals(ancestors)), access, x);
  }

  /** The proxies' ports may be reached, and with local networking every port of the local host. */
  predicate IsOpenPort(localhost: bool, httpPort: nat, socksPort: nat, port: nat) {
    port == httpPort || port == socksPort || localhost
  }

  predicate IsNetwork(access: Access) {
    access.BindPort? || access.AcceptAt? || access.ConnectTo?
  }

  lemma NetworkDecides(localhost: bool, httpPort: nat, socksPort: nat, access: Access, x: Path)
    ensures Verdict(NetworkRules(localhost, httpPort, socksPort), access, x) ==
            if IsNetwork(access) && access.local && (access.ConnectTo? ==> IsOpenPort(localhost, httpPort, socksPort, access.port))
            then Some(true) else None
  {
    var rules := NetworkRules(localhost, httpPort, socksPort);
    OneFilterMatches(LocalPort(None), access, x);
    OneFilterMatches(RemotePort(None), access, x);
    TwoFiltersMatch(RemotePort(Some(httpPort)), RemotePort(Some(socksPort)), access, x);
    if IsNetwork(access) && access.local && (access.ConnectTo? ==> IsOpenPort(localhost, httpPort, socksPort, access.port)) {
      LastDecides(rules, if access.BindPort? then 0 else if access.AcceptAt? then 1 else if localhost then 3 else 2, access, x);
    } else {
      OthersDoNotDecide(rules, access, x);
    }
  }

  function Later(one: Option<bool>, other: Option<bool>): Option<bool> {
    if one.Some? then one else other
  }

  lemma ClosingRulesDecide(t: Tree, resolved: ResolvedSandbox, httpPort: nat, socksPort: nat, access: Access, x: Path)
    ensures Verdict(ClosingRules(t, resolved, httpPort, socksPort), access, x) ==
            Later(Verdict([ExecRule(t, resolved)], access, x), Verdict(NetworkRules(resolved.localhost, httpPort, socksPort), access, x))
  {
    LaterRulesDecide(NetworkRules(resolved.localhost, httpPort, socksPort), [ExecRule(t, resolved)], access, x);
  }

  /** Which part of the profile decides over an access. */
  lemma PartDecides(t: Tree, resolved: ResolvedSandbox, httpPort: nat, socksPort: nat, access: Access, x: Path)
    ensures Verdict(Rules(t, resolved, httpPort, socksPort), access, x) ==
            Later(Verdict(ClosingRules(t, resolved, httpPort, socksPort), access, x),
            Later(Verdict(DenyRules(resolved), access, x),
            Later(Verdict(AllowRules(resolved), access, x), Verdict(ReadRules(resolved), access, x))))
  {
    var reading, allows, denies, closing := ReadRules(resolved), AllowRules(resolved), DenyRules(resolved), ClosingRules(t, resolved, httpPort, socksPort);
    LaterRulesDecide(denies, closing, access, x);
    LaterRulesDecide(allows, denies + closing, access, x);
    LaterRulesDecide(reading, allows + (denies + closing), access, x);
  }

  lemma AccessDecides(t: Tree, resolved: ResolvedSandbox, httpPort: nat, socksPort: nat, access: Access, x: Path)
    ensures Verdict(Rules(t, resolved, httpPort, socksPort), access, x) ==
            Later(Verdict([ExecRule(t, resolved)], access, x),
            Later(Verdict(NetworkRules(resolved.localhost, httpPort, socksPort), access, x),
            if access == Unlink && x in ProtectedAncestors(resolved) then Some(false)
            else if IsWriting(access) && IsUnder(resolved.writeDeny, x) then Some(false)
            else if IsWriting(access) && (IsUnder(resolved.writeAllow, x) || IsDevice(x)) then Some(true)
            else Some(IsOpen(access) && !(access == ReadData && IsUnder(resolved.readDeny, x)))))
  {
    PartDecides(t, resolved, httpPort, socksPort, access, x);
    ReadRulesDecide(resolved, access, x);
    AllowRulesDecide(resolved, access, x);
    DenyRulesDecide(resolved, access, x);
    ClosingRulesDecide(t, resolved, httpPort, socksPort, access, x);
  }

  predicate May(t: Tree, resolved: ResolvedSandbox, httpPort: nat, socksPort: nat, access: Access, x: Path) {
    MayUnder(Rules(t, resolved, httpPort, socksPort), access, x)
  }

  /** The last rule that applies allows the access. */
  predicate MayUnder(rules: seq<Rule>, access: Access, x: Path) {
    Verdict(rules, access, x) == Some(true)
  }

  /** What the profile lets a task do with a path. */
  lemma ProfileAllowsExactly(t: Tree, resolved: ResolvedSandbox, httpPort: nat, socksPort: nat, x: Path)
    ensures May(t, resolved, httpPort, socksPort, Write, x) <==>
            !IsUnder(resolved.writeDeny, x) && (IsUnder(resolved.writeAllow, x) || IsDevice(x))
    ensures May(t, resolved, httpPort, socksPort, Unlink, x) <==>
            May(t, resolved, httpPort, socksPort, Write, x) && x !in ProtectedAncestors(resolved)
    ensures May(t, resolved, httpPort, socksPort, ReadData, x) <==> !IsUnder(resolved.readDeny, x)
    ensures May(t, resolved, httpPort, socksPort, ReadMetadata, x)
  {
    AccessDecidesOnce(t, resolved, httpPort, socksPort, Write, x);
    AccessDecidesOnce(t, resolved, httpPort, socksPort, Unlink, x);
    AccessDecidesOnce(t, resolved, httpPort, socksPort, ReadData, x);
    AccessDecidesOnce(t, resolved, httpPort, socksPort, ReadMetadata, x);
  }

  /** Neither the executables nor the network rules say anything about other accesses. */
  lemma AccessDecidesOnce(t: Tree, resolved: ResolvedSandbox, httpPort: nat, socksPort: nat, access: Access, x: Path)
    requires access != Execute && !IsNetwork(access)
    ensures Verdict(Rules(t, resolved, httpPort, socksPort), access, x) ==
            if access == Unlink && x in ProtectedAncestors(resolved) then Some(false)
            else if IsWriting(access) && IsUnder(resolved.writeDeny, x) then Some(false)
            else if IsWriting(access) && (IsUnder(resolved.writeAllow, x) || IsDevice(x)) then Some(true)
            else Some(IsOpen(access) && !(access == ReadData && IsUnder(resolved.readDeny, x)))
  {
    AccessDecides(t, resolved, httpPort, socksPort, access, x);
    OneRuleDecides(ExecRule(t, resolved), access, x);
    NetworkDecides(resolved.localhost, httpPort, socksPort, access, x);
  }

  /**
   * A task serves on the local host and connects to the two proxies, with local networking to any port of the local
   * host, and never to another host.
   */
  lemma NetworkExactly(t: Tree, resolved: ResolvedSandbox, httpPort: nat, socksPort: nat, local: bool, port: nat, x: Path)
    ensures May(t, resolved, httpPort, socksPort, ConnectTo(local, port), x) <==>
            local && (port == httpPort || port == socksPort || resolved.localhost)
    ensures May(t, resolved, httpPort, socksPort, BindPort(local, port), x) <==> local
    ensures May(t, resolved, httpPort, socksPort, AcceptAt(local, port), x) <==> local
  {
    NetworkAccessDecides(t, resolved, httpPort, socksPort, ConnectTo(local, port), x);
    NetworkAccessDecides(t, resolved, httpPort, socksPort, BindPort(local, port), x);
    NetworkAccessDecides(t, resolved, httpPort, socksPort, AcceptAt(local, port), x);
  }

  lemma NetworkAccessDecides(t: Tree, resolved: ResolvedSandbox, httpPort: nat, socksPort: nat, access: Access, x: Path)
    requires IsNetwork(access)
    ensures May(t, resolved, httpPort, socksPort, access, x) <==>
            access.local && (access.ConnectTo? ==> IsOpenPort(resolved.localhost, httpPort, socksPort, access.port))
  {
    AccessDecides(t, resolved, httpPort, socksPort, access, x);
    OneRuleDecides(ExecRule(t, resolved), access, x);
    NetworkDecides(resolved.localhost, httpPort, socksPort, access, x);
  }

  /** Of everything else a task may do what is open to every program: use the system, but signal and inspect its own sandbox only. */
  lemma OthersExactly(t: Tree, resolved: ResolvedSandbox, httpPort: nat, socksPort: nat, access: Access, x: Path)
    requires access != Execute && !IsNetwork(access) && !IsWriting(access) && access != ReadData
    ensures May(t, resolved, httpPort, socksPort, access, x) <==> IsOpen(access)
  {
    AccessDecidesOnce(t, resolved, httpPort, socksPort, access, x);
  }

  /** A listed program, or something inside a listed directory. */
  predicate IsListed(t: Tree, executables: seq<Path>, x: Path) {
    exists i :: 0 <= i < |executables| && (x == executables[i] || (executables[i] in t.dirs && Contains(executables[i], x)))
  }

  lemma ExecFiltersMatch(t: Tree, paths: seq<Path>, x: Path)
    ensures MatchesFilters(ExecFilters(t, paths), Execute, x) <==> IsListed(t, paths, x)
  {
    var filters := ExecFilters(t, paths);
    forall i | 0 <= i < |paths|
      ensures MatchesFilter(filters[i], Execute, x) <==> x == paths[i] || (paths[i] in t.dirs && Contains(paths[i], x))
    {
      assert filters[i] == ExecFilter(t, paths[i]);
    }
  }

  lemma ExecRuleDecides(t: Tree, resolved: ResolvedSandbox, x: Path)
    ensures Applies(ExecRule(t, resolved), Execute, x) <==>
            resolved.executables.None? || resolved.executables.value == [] || IsListed(t, resolved.executables.value, x)
  {
    if resolved.executables.Some? {
      ExecFiltersMatch(t, resolved.executables.value, x);
    }
  }

  /** Everything runs when there is no list, or an empty one; otherwise exactly what is listed does. */
  lemma RunsExactly(t: Tree, resolved: ResolvedSandbox, httpPort: nat, socksPort: nat, x: Path)
    ensures May(t, resolved, httpPort, socksPort, Execute, x) <==>
            resolved.executables.None? || resolved.executables.value == [] || IsListed(t, resolved.executables.value, x)
  {
    AccessDecides(t, resolved, httpPort, socksPort, Execute, x);
    NetworkDecides(resolved.localhost, httpPort, socksPort, Execute, x);
    OneRuleDecides(ExecRule(t, resolved), Execute, x);
    ExecRuleDecides(t, resolved, x);
  }

  /** Both backends give the same answer about writing a path that is no device, may be read, and is not in the bridge. */
  lemma BackendsAgree(t: Tree, resolved: ResolvedSandbox, bridge: Bridge, httpPort: nat, socksPort: nat, x: Path)
    requires IsTree(t) && forall a :: a in resolved.writeAllow ==> Exists(t, a)
    requires !IsDevice(x) && !IsUnder(resolved.readDeny, x) && !Contains(bridge.directory, x)
    ensures IsHostWritable(MountList(t, resolved, bridge), x) <==> May(t, resolved, httpPort, socksPort, Write, x)
  {
    WritableExactly(t, resolved, bridge, x);
    ProfileAllowsExactly(t, resolved, httpPort, socksPort, x);
  }
}
