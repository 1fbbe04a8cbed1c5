/** Reading the text of a Seatbelt profile as rules. */
module SeatbeltReader {
  import opened Outcomes
  import opened Paths
  import opened Splitting
  import opened Seatbelt

  /** Reads a string literal after its opening quote: what it holds, and what follows it. */
  function ReadString(text: string): Option<(string, string)> {
    if text == [] then None
    else if text[0] == '"' then Some(([], text[1..]))
    else if text[0] == '\\' then
      if |text| == 1 then None
      else
        var rest := ReadString(text[2..]);
        if rest.None? then None else Some(([text[1]] + rest.value.0, rest.value.1))
    else
      var rest := ReadString(text[1..]);
      if rest.None? then None else Some(([text[0]] + rest.value.0, rest.value.1))
  }

  /** What follows the prefix. */
  function After(prefix: string, text: string): Option<string> {
    if prefix <= text then Some(text[|prefix|..]) else None
  }

  predicate EndsWord(c: char) {
    c == ' ' || c == ')'
  }

  /** The text up to the next blank or closing bracket, and what follows it. */
  function ReadWord(text: string): (string, string) {
    if text == "" || EndsWord(text[0]) then ("", text)
    else
      var (word, rest) := ReadWord(text[1..]);
      ([text[0]] + word, rest)
  }

  function ReadOperation(word: string): Option<Operation> {
    if word == "default" then Some(Everything)
    else if word == "file-read*" then Some(FileRead)
    else if word == "file-read-metadata" then Some(FileReadMetadata)
    else if word == "file-write*" then Some(FileWrite)
    else if word == "file-write-unlink" then Some(FileWriteUnlink)
    else if word == "file-ioctl" then Some(FileIoctl)
    else if word == "process-exec*" then Some(ProcessExec)
    else if word == "process-fork" then Some(ProcessFork)
    else if word == "process-info*" then Some(ProcessInfo)
    else if word == "signal" then Some(SendSignal)
    else if word == "sysctl-read" then Some(SysctlRead)
    else if word == "mach-lookup" then Some(MachLookup)
    else if word == "ipc-posix*" then Some(IpcPosix)
    else if word == "pseudo-tty" then Some(PseudoTty)
    else if word == "user-preference-read" then Some(UserPreferenceRead)
    else if word == "network-bind" then Some(NetworkBind)
    else if word == "network-inbound" then Some(NetworkInbound)
    else if word == "network-outbound" then Some(NetworkOutbound)
    else None
  }

  /** A string literal and the bracket that closes its filter. */
  function ReadValue(text: string): Option<(string, string)> {
    match After("\"", text)
    case None => None
    case Some(inside) =>
      match ReadString(inside)
      case None => None
      case Some((value, rest)) => if After(")", rest).None? then None else Some((value, After(")", rest).value))
  }

  function ReadAddress(value: string): Option<Option<nat>> {
    match After("localhost:", value)
    case None => None
    case Some(port) => if port == "*" then Some(None) else if IsNumber(port) then Some(Some(Value(port))) else None
  }

  /** One filter after its opening bracket, and what follows its closing one. */
  function ReadFilter(text: string): Option<(Filter, string)> {
    if "subpath " <= text then ReadPathFilter(true, text[8..])
    else if "literal " <= text then ReadPathFilter(false, text[8..])
    else if "regex #\"^/dev/ttys[0-9]+$\")" <= text then Some((TerminalDevice, text[27..]))
    else if "regex #\"^/dev/fd/[0-9]+$\")" <= text then Some((FileDescriptor, text[26..]))
    else if "target same-sandbox)" <= text then Some((SameSandbox, text[20..]))
    else if "local ip " <= text then ReadPortFilter(true, text[9..])
    else if "remote ip " <= text then ReadPortFilter(false, text[10..])
    else None
  }

  function ReadPathFilter(below: bool, text: string): Option<(Filter, string)> {
    match ReadValue(text)
    case None => None
    case Some((value, rest)) => Some((if below then Subpath(ReadPath(value)) else Literal(ReadPath(value)), rest))
  }

  function ReadPortFilter(local: bool, text: string): Option<(Filter, string)> {
    match ReadValue(text)
    case None => None
    case Some((value, rest)) =>
      match ReadAddress(value)
      case None => None
      case Some(port) => Some((if local then LocalPort(port) else RemotePort(port), rest))
  }

  /** The filters up to the end of the rule. */
  function ReadFilters(text: string): Option<(seq<Filter>, string)>
    decreases |text|
  {
    if ")\n" <= text then Some(([], text[2..]))
    else if " (" <= text then
      match ReadFilter(text[2..])
      case None => None
      case Some((filter, rest)) =>
        if |rest| >= |text| then None
        else
          match ReadFilters(rest)
          case None => None
          case Some((filters, left)) => Some(([filter] + filters, left))
    else None
  }

  function ReadRule(text: string): Option<(Rule, string)> {
    if "(allow " <= text then ReadAction(true, text[7..])
    else if "(deny " <= text then ReadAction(false, text[6..])
    else None
  }

  function ReadAction(allow: bool, text: string): Option<(Rule, string)> {
    var (word, rest) := ReadWord(text);
    match ReadOperation(word)
    case None => None
    case Some(operation) =>
      match ReadFilters(rest)
      case None => None
      case Some((filters, left)) => Some((Rule(allow, operation, filters), left))
  }

  function ReadEachRule(text: string): Option<seq<Rule>>
    decreases |text|
  {
    if text == "" then Some([])
    else
      match ReadRule(text)
      case None => None
      case Some((rule, rest)) =>
        if |rest| >= |text| then None
        else
          match ReadEachRule(rest)
          case None => None
          case Some(rules) => Some([rule] + rules)
  }

  /** The rules of a whole profile, in order. */
  function ReadProfile(text: string): Option<seq<Rule>> {
    match After("(version 1)\n", text)
    case None => None
    case Some(rules) => ReadEachRule(rules)
  }
}
