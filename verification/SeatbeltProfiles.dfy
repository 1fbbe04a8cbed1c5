/** Writing the Seatbelt profile as text, rule after rule. */
module SeatbeltProfiles {
  import opened Outcomes
  import opened Paths
  import opened Sequences
  import opened Splitting
  import opened Sandboxes
  import opened MaskTrees
  import opened Seatbelt
  import opened SeatbeltReader

  // ----- quoting -----

  function Escaped(text: string): string {
    if text == [] then []
    else (if text[0] == '"' || text[0] == '\\' then ['\\', text[0]] else [text[0]]) + Escaped(text[1..])
  }

  /** A path as a string literal of the profile language. */
  method Quote(text: string) returns (quoted: string)
    ensures quoted == ['"'] + Escaped(text) + ['"']
  {
    quoted := ['"'];
    var i := 0;
    while i < |text|
      invariant i <= |text| && quoted + Escaped(text[i..]) == ['"'] + Escaped(text)
    {
      assert text[i..][1..] == text[i + 1..];
      if text[i] == '"' || text[i] == '\\' {
        quoted := quoted + ['\\'];
      }
      quoted := quoted + [text[i]];
      i := i + 1;
    }
    quoted := quoted + ['"'];
  }

  /** Whatever characters a path holds, its literal reads back as the path and ends where it was closed. */
  lemma {:induction false} QuotedReadsBack(text: string, rest: string)
    ensures ReadString(Escaped(text) + ['"'] + rest) == Some((text, rest))
  {
    var all := Escaped(text) + ['"'] + rest;
    if text == [] {
      assert all[1..] == rest;
    } else {
      QuotedReadsBack(text[1..], rest);
      var tail := Escaped(text[1..]) + ['"'] + rest;
      assert text == [text[0]] + text[1..];
      if text[0] == '"' || text[0] == '\\' {
        assert all == ['\\', text[0]] + tail && all[2..] == tail;
      } else {
        assert all == [text[0]] + tail && all[1..] == tail;
      }
    }
  }

  // ----- rules as text -----

  function Quoted(text: string): string {
    ['"'] + Escaped(text) + ['"']
  }

  function OperationText(operation: Operation): string {
    match operation
    case Everything => "default"
    case FileRead => "file-read*"
    case FileReadMetadata => "file-read-metadata"
    case FileWrite => "file-write*"
    case FileWriteUnlink => "file-write-unlink"
    case FileIoctl => "file-ioctl"
    case ProcessExec => "process-exec*"
    case ProcessFork => "process-fork"
    case ProcessInfo => "process-info*"
    case SendSignal => "signal"
    case SysctlRead => "sysctl-read"
    case MachLookup => "mach-lookup"
    case IpcPosix => "ipc-posix*"
    case PseudoTty => "pseudo-tty"
    case UserPreferenceRead => "user-preference-read"
    case NetworkBind => "network-bind"
    case NetworkInbound => "network-inbound"
    case NetworkOutbound => "network-outbound"
  }

  function AddressText(port: Option<nat>): string {
    "localhost:" + if port.None? then "*" else Decimal(port.value)
  }

  function FilterText(filter: Filter): string {
    match filter
    case Subpath(path) => "subpath " + Quoted(PathText(path))
    case Literal(path) => "literal " + Quoted(PathText(path))
    case TerminalDevice => "regex #\"^/dev/ttys[0-9]+$\""
    case FileDescriptor => "regex #\"^/dev/fd/[0-9]+$\""
    case SameSandbox => "target same-sandbox"
    case LocalPort(port) => "local ip " + Quoted(AddressText(port))
    case RemotePort(port) => "remote ip " + Quoted(AddressText(port))
  }

  function FilterPart(filter: Filter): string {
    " (" + FilterText(filter) + ")"
  }

  function FiltersText(filters: seq<Filter>): string {
    Flatten(FilterPart, filters)
  }

  function ActionText(allow: bool, operation: Operation): string {
    "(" + (if allow then "allow " else "deny ") + OperationText(operation)
  }

  function RuleText(rule: Rule): string {
    ActionText(rule.allow, rule.operation) + FiltersText(rule.filters) + ")\n"
  }

  function RulesText(rules: seq<Rule>): string {
    Flatten(RuleText, rules)
  }

  // ----- reading what was written -----

  lemma {:induction false} WordReads(word: string, rest: string)
    requires forall i :: 0 <= i < |word| ==> !EndsWord(word[i])
    requires rest != "" && EndsWord(rest[0])
    ensures ReadWord(word + rest) == (word, rest)
  {
    if word == "" {
      assert word + rest == rest;
    } else {
      assert (word + rest)[1..] == word[1..] + rest;
      WordReads(word[1..], rest);
      assert [word[0]] + word[1..] == word;
    }
  }

  lemma OperationReads(operation: Operation)
    ensures ReadOperation(OperationText(operation)) == Some(operation)
  {
  }

  lemma OperationIsWord(operation: Operation)
    ensures forall i :: 0 <= i < |OperationText(operation)| ==> !EndsWord(OperationText(operation)[i])
  {
    OperationHasNoBlank(operation);
    OperationHasNoBracket(operation);
  }

  lemma OperationHasNoBlank(operation: Operation)
    ensures ' ' !in OperationText(operation)
  {
  }

  lemma OperationHasNoBracket(operation: Operation)
    ensures ')' !in OperationText(operation)
  {
  }

  lemma ValueReads(value: string, rest: string)
    ensures ReadValue(Quoted(value) + ")" + rest) == Some((value, rest))
  {
    var all := Quoted(value) + ")" + rest;
    assert all[1..] == Escaped(value) + ['"'] + (")" + rest);
    QuotedReadsBack(value, ")" + rest);
    assert (")" + rest)[1..] == rest;
  }

  lemma AddressReads(port: Option<nat>)
    ensures ReadAddress(AddressText(port)) == Some(port)
  {
    var written := if port.None? then "*" else Decimal(port.value);
    assert AddressText(port)[10..] == written;
    assert !IsDigit("*"[0]);
  }

  lemma PathWordsRead(text: string)
    ensures ReadFilter("subpath " + text) == ReadPathFilter(true, text)
    ensures ReadFilter("literal " + text) == ReadPathFilter(false, text)
  {
    assert ("subpath " + text)[..8] == "subpath " && ("subpath " + text)[8..] == text;
    assert ("literal " + text)[..8] == "literal " && ("literal " + text)[8..] == text && ("literal " + text)[0] == 'l';
  }

  lemma LocalReads(text: string)
    ensures ReadFilter("local ip " + text) == ReadPortFilter(true, text)
  {
    var all := "local ip " + text;
    assert all[0] == 'l' && all[1] == 'o' && all[..9] == "local ip " && all[9..] == text;
  }

  lemma RemoteReads(text: string)
    ensures ReadFilter("remote ip " + text) == ReadPortFilter(false, text)
  {
    var all := "remote ip " + text;
    assert all[0] == 'r' && all[2] == 'm' && all[..10] == "remote ip " && all[10..] == text;
  }

  lemma TerminalReads(rest: string)
    ensures ReadFilter(FilterText(TerminalDevice) + ")" + rest) == Some((TerminalDevice, rest))
  {
    var word := "regex #\"^/dev/ttys[0-9]+$\")";
    assert FilterText(TerminalDevice) + ")" == word;
    assert (word + rest)[..|word|] == word && (word + rest)[|word|..] == rest && (word + rest)[0] == 'r';
  }

  lemma DescriptorReads(rest: string)
    ensures ReadFilter(FilterText(FileDescriptor) + ")" + rest) == Some((FileDescriptor, rest))
  {
    var word := "regex #\"^/dev/fd/[0-9]+$\")";
    assert FilterText(FileDescriptor) + ")" == word;
    assert (word + rest)[..|word|] == word && (word + rest)[|word|..] == rest && (word + rest)[0] == 'r' && (word + rest)[14] == 'f';
  }

  lemma SandboxReads(rest: string)
    ensures ReadFilter(FilterText(SameSandbox) + ")" + rest) == Some((SameSandbox, rest))
  {
    var word := "target same-sandbox)";
    assert FilterText(SameSandbox) + ")" == word;
    assert (word + rest)[..|word|] == word && (word + rest)[|word|..] == rest && (word + rest)[0] == 't';
  }

  lemma SubpathReads(path: Path, rest: string)
    ensures ReadFilter(FilterText(Subpath(path)) + ")" + rest) == Some((Subpath(path), rest))
  {
    WordThenRest("subpath ", Quoted(PathText(path)), rest);
    PathWordsRead(Quoted(PathText(path)) + ")" + rest);
    PathFilterReads(true, path, rest);
  }

  lemma LiteralReads(path: Path, rest: string)
    ensures ReadFilter(FilterText(Literal(path)) + ")" + rest) == Some((Literal(path), rest))
  {
    WordThenRest("literal ", Quoted(PathText(path)), rest);
    PathWordsRead(Quoted(PathText(path)) + ")" + rest);
    PathFilterReads(false, path, rest);
  }

  lemma PortsRead(port: Option<nat>, rest: string)
    ensures ReadFilter(FilterText(LocalPort(port)) + ")" + rest) == Some((LocalPort(port), rest))
    ensures ReadFilter(FilterText(RemotePort(port)) + ")" + rest) == Some((RemotePort(port), rest))
  {
    WordThenRest("local ip ", Quoted(AddressText(port)), rest);
    LocalReads(Quoted(AddressText(port)) + ")" + rest);
    PortFilterReads(true, port, rest);
    WordThenRest("remote ip ", Quoted(AddressText(port)), rest);
    RemoteReads(Quoted(AddressText(port)) + ")" + rest);
    PortFilterReads(false, port, rest);
  }

  lemma PathFilterReads(below: bool, path: Path, rest: string)
    ensures ReadPathFilter(below, Quoted(PathText(path)) + ")" + rest) == Some((if below then Subpath(path) else Literal(path), rest))
  {
    ValueReads(PathText(path), rest);
    PathReadsBack(path);
  }

  lemma PortFilterReads(local: bool, port: Option<nat>, rest: string)
    ensures ReadPortFilter(local, Quoted(AddressText(port)) + ")" + rest) == Some((if local then LocalPort(port) else RemotePort(port), rest))
  {
    ValueReads(AddressText(port), rest);
    AddressReads(port);
  }

  lemma WordThenRest(word: string, value: string, rest: string)
    ensures word + value + ")" + rest == word + (value + ")" + rest)
  {
  }

  /** A filter stands behind a word that no other filter begins with. */
  lemma FilterReads(filter: Filter, rest: string)
    ensures ReadFilter(FilterText(filter) + ")" + rest) == Some((filter, rest))
  {
    match filter
    case Subpath(path) => SubpathReads(path, rest);
    case Literal(path) => LiteralReads(path, rest);
    case TerminalDevice => TerminalReads(rest);
    case FileDescriptor => DescriptorReads(rest);
    case SameSandbox => SandboxReads(rest);
    case LocalPort(port) => PortsRead(port, rest);
    case RemotePort(port) => PortsRead(port, rest);
  }

  lemma {:induction false} FiltersRead(filters: seq<Filter>, rest: string)
    ensures ReadFilters(FiltersText(filters) + (")\n" + rest)) == Some((filters, rest))
  {
    var last := ")\n" + rest;
    if filters == [] {
      assert FiltersText(filters) + last == last && last[2..] == rest && last[..2] == ")\n";
    } else {
      FlattenFirst(FilterPart, filters, last);
      FiltersRead(filters[1..], rest);
      OneFilterReads(filters[0], FiltersText(filters[1..]) + last, filters[1..], rest);
      assert [filters[0]] + filters[1..] == filters;
    }
  }

  lemma OneFilterReads(filter: Filter, text: string, filters: seq<Filter>, rest: string)
    requires ReadFilters(text) == Some((filters, rest))
    ensures ReadFilters(FilterPart(filter) + text) == Some(([filter] + filters, rest))
  {
    FilterReads(filter, text);
    Bracketed(FilterText(filter), text);
    BracketReads(FilterText(filter) + ")" + text, filter, text, filters, rest);
  }

  lemma Bracketed(inner: string, text: string)
    ensures " (" + inner + ")" + text == " (" + (inner + ")" + text) && |text| < |inner + ")" + text|
  {
  }

  lemma BracketReads(inner: string, filter: Filter, text: string, filters: seq<Filter>, rest: string)
    requires ReadFilter(inner) == Some((filter, text)) && |text| < |inner| && ReadFilters(text) == Some((filters, rest))
    ensures ReadFilters(" (" + inner) == Some(([filter] + filters, rest))
  {
    assert (" (" + inner)[..2] == " (" && (" (" + inner)[2..] == inner && (" (" + inner)[0] == ' ';
  }

  /** A rule is read with its verb, its operation and its filters, up to the end of its line. */
  lemma RuleReads(rule: Rule, rest: string)
    ensures ReadRule(RuleText(rule) + rest) == Some((rule, rest)) && RuleText(rule) != ""
  {
    var word, last := OperationText(rule.operation), FiltersText(rule.filters) + (")\n" + rest);
    var verb := if rule.allow then "allow " else "deny ";
    VerbThenRest(verb, word, FiltersText(rule.filters), ")\n", rest);
    VerbReads(rule.allow, word + last);
    OperationReads(rule.operation);
    OperationIsWord(rule.operation);
    LastEndsWord(rule.filters, rest);
    WordReads(word, last);
    FiltersRead(rule.filters, rest);
  }

  lemma VerbThenRest(verb: string, word: string, filters: string, end: string, rest: string)
    ensures "(" + verb + word + filters + end + rest == "(" + verb + (word + (filters + (end + rest)))
  {
  }

  lemma VerbReads(allow: bool, text: string)
    ensures ReadRule("(" + (if allow then "allow " else "deny ") + text) == ReadAction(allow, text)
  {
    var verb := "(" + if allow then "allow " else "deny ";
    var all := verb + text;
    assert all[..|verb|] == verb && all[|verb|..] == text && all[1] == verb[1];
  }

  lemma LastEndsWord(filters: seq<Filter>, rest: string)
    ensures var last := FiltersText(filters) + (")\n" + rest); last != "" && EndsWord(last[0])
  {
    if filters != [] {
      FlattenFirst(FilterPart, filters, ")\n" + rest);
      assert FilterPart(filters[0])[0] == ' ';
    } else {
      assert FiltersText(filters) + (")\n" + rest) == ")\n" + rest;
    }
  }

  lemma {:induction false} RulesRead(rules: seq<Rule>)
    ensures ReadEachRule(RulesText(rules)) == Some(rules)
  {
    if rules != [] {
      FlattenFirst(RuleText, rules, "");
      RulesRead(rules[1..]);
      EndsInNothing(RulesText(rules));
      EndsInNothing(RulesText(rules[1..]));
      RuleReads(rules[0], RulesText(rules[1..]));
      assert [rules[0]] + rules[1..] == rules;
    }
  }

  lemma EndsInNothing(text: string)
    ensures text + "" == text
  {
  }

  /** The text of a profile is read as its rules, each with its verb, its operation and its filters. */
  lemma ProfileReadsBack(rules: seq<Rule>)
    ensures ReadProfile(VERSION + RulesText(rules)) == Some(rules)
  {
    RulesRead(rules);
    assert (VERSION + RulesText(rules))[|VERSION|..] == RulesText(rules);
  }

  // ----- writing rules -----

  /** Appends one filter over a path. */
  method WriteFilter(profile: string, filter: Filter) returns (r: string)
    requires filter.Subpath? || filter.Literal?
    ensures r == profile + FilterPart(filter)
  {
    var quoted := Quote(PathText(filter.path));
    r := profile + (" (" + ((if filter.Subpath? then "subpath " else "literal ") + quoted) + ")");
  }

  method WriteFilters(profile: string, filters: seq<Filter>) returns (r: string)
    requires forall i :: 0 <= i < |filters| ==> filters[i].Subpath? || filters[i].Literal?
    ensures r == profile + FiltersText(filters)
  {
    r := profile;
    var i := 0;
    assert filters[..0] == [];
    while i < |filters|
      invariant i <= |filters| && r == profile + Flatten(FilterPart, filters[..i])
    {
      r := WriteFilter(r, filters[i]);
      FlattenNext(profile, FilterPart, filters, i);
      i := i + 1;
    }
    assert filters[..i] == filters;
  }

  /** Writes one rule over some paths, or nothing when there are none. */
  method WriteRule(profile: string, allow: bool, operation: Operation, filters: seq<Filter>) returns (r: string)
    requires forall i :: 0 <= i < |filters| ==> filters[i].Subpath? || filters[i].Literal?
    ensures r == profile + RulesText(WrittenRule(allow, operation, filters))
  {
    if filters == [] {
      assert profile + [] == profile;
      return profile;
    }
    r := WriteFilters(profile + ActionText(allow, operation), filters);
    r := r + ")\n";
    RuleIsWritten(profile, Rule(allow, operation, filters), r);
  }

  lemma RuleIsWritten(profile: string, rule: Rule, r: string)
    requires r == profile + ActionText(rule.allow, rule.operation) + FiltersText(rule.filters) + ")\n"
    ensures r == profile + RulesText([rule])
  {
    var action, filters := ActionText(rule.allow, rule.operation), FiltersText(rule.filters);
    Joined(profile, action, filters);
    Joined(profile, action + filters, ")\n");
    FlattenOne(RuleText, rule);
  }

  /** Appends rules that never change. */
  method WriteFixed(profile: string, ghost before: seq<Rule>, version: string, fixed: seq<Rule>) returns (r: string)
    requires profile == version + RulesText(before)
    ensures r == version + RulesText(before + fixed)
  {
    r := profile + RulesText(fixed);
    FlattenJoins(RuleText, before, fixed);
    Joined(version, RulesText(before), RulesText(fixed));
  }

  method WriteNext(profile: string, ghost before: seq<Rule>, version: string, allow: bool, operation: Operation, filters: seq<Filter>) returns (r: string)
    requires profile == version + RulesText(before)
    requires forall i :: 0 <= i < |filters| ==> filters[i].Subpath? || filters[i].Literal?
    ensures r == version + RulesText(before + WrittenRule(allow, operation, filters))
  {
    r := WriteRule(profile, allow, operation, filters);
    FlattenJoins(RuleText, before, WrittenRule(allow, operation, filters));
    Joined(version, RulesText(before), RulesText(WrittenRule(allow, operation, filters)));
  }

  const VERSION: string := "(version 1)\n"

  /** The rules about reading. */
  method WriteReadRules(resolved: ResolvedSandbox) returns (r: string)
    ensures r == VERSION + RulesText(ReadRules(resolved))
  {
    ghost var opening, denied := OpeningRules(), WrittenRule(false, FileRead, Subpaths(resolved.readDeny));
    r := WriteFixed(VERSION, [], VERSION, OpeningRules());
    StartsEmpty(opening);
    r := WriteNext(r, opening, VERSION, false, FileRead, Subpaths(resolved.readDeny));
    r := WriteFixed(r, opening + denied, VERSION, [Everywhere(true, FileReadMetadata)]);
    Joined(opening, denied, [Everywhere(true, FileReadMetadata)]);
  }

  /** What may be written, after the rules before. */
  method WriteAllowRules(profile: string, ghost before: seq<Rule>, resolved: ResolvedSandbox) returns (r: string)
    requires profile == VERSION + RulesText(before)
    ensures r == VERSION + RulesText(before + AllowRules(resolved))
  {
    ghost var allowed := WrittenRule(true, FileWrite, Subpaths(resolved.writeAllow));
    r := WriteNext(profile, before, VERSION, true, FileWrite, Subpaths(resolved.writeAllow));
    r := WriteFixed(r, before + allowed, VERSION, [Rule(true, FileWrite, DeviceFilters())]);
    Joined(before, allowed, [Rule(true, FileWrite, DeviceFilters())]);
  }

  /** What may not be written or removed, after the rules before. */
  method WriteDenyRules(profile: string, ghost before: seq<Rule>, resolved: ResolvedSandbox) returns (r: string)
    requires profile == VERSION + RulesText(before)
    ensures r == VERSION + RulesText(before + DenyRules(resolved))
  {
    ghost var denied := WrittenRule(false, FileWrite, Subpaths(resolved.writeDeny));
    r := WriteNext(profile, before, VERSION, false, FileWrite, Subpaths(resolved.writeDeny));
    r := WriteNext(r, before + denied, VERSION, false, FileWriteUnlink, Literals(ProtectedAncestors(resolved)));
    Joined(before, denied, WrittenRule(false, FileWriteUnlink, Literals(ProtectedAncestors(resolved))));
  }

  lemma StartsEmpty(rules: seq<Rule>)
    ensures [] + rules == rules
  {
  }

  /** The whole profile, written part by part. */
  method Profile(t: Tree, resolved: ResolvedSandbox, httpPort: nat, socksPort: nat) returns (r: string)
    ensures ReadProfile(r) == Some(Rules(t, resolved, httpPort, socksPort))
    ensures r == VERSION + RulesText(Rules(t, resolved, httpPort, socksPort))
  {
    r := WriteReadRules(resolved);
    r := WriteAllowRules(r, ReadRules(resolved), resolved);
    r := WriteDenyRules(r, ReadRules(resolved) + AllowRules(resolved), resolved);
    ghost var reading, allows, denies, closing := ReadRules(resolved), AllowRules(resolved), DenyRules(resolved), ClosingRules(t, resolved, httpPort, socksPort);
    r := WriteFixed(r, reading + allows + denies, VERSION, ClosingRules(t, resolved, httpPort, socksPort));
    Joined(reading + allows, denies, closing);
    Joined(reading, allows, denies + closing);
    ProfileReadsBack(Rules(t, resolved, httpPort, socksPort));
  }
}
