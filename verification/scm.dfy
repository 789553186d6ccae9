/** The host's service control manager, seen from outside: a snapshot of the
    installed services and an oracle that runs an external command against
    it. Nothing in here decides anything; it is the environment the service
    manager's branching is stated against. */
module Scm {
  import opened Wrappers
  import opened Text

  /** The values of `ServiceControllerStatus`. */
  datatype ScmStatus =
    | Stopped | StartPending | StopPending | Running
    | ContinuePending | PausePending | Paused

  /** Reading an installed service's `Status`: either the status, or the
      message of the exception the read throws (access denied, the service
      deleted meanwhile, ...). */
  datatype StatusProbe = Readable(status: ScmStatus) | Unreadable(reason: string)

  /** One installed service as the OS lists it. */
  datatype Entry = Entry(name: string, probe: StatusProbe)

  /** A snapshot of the OS's service registry. When `fault` is `Some(m)`,
      every query against the registry throws with message `m`. */
  datatype Registry = Registry(entries: seq<Entry>, fault: Option<string>)

  /** An external program launched with an argument string. */
  datatype Command = Command(fileName: string, arguments: string)

  /** What launching a command yields: the process's exit code, or the message
      of the exception `Process.Start` throws when the program cannot be
      launched at all (elevation declined, binary missing). */
  datatype Launch = Exited(exitCode: int) | LaunchFailed(reason: string)

  /** The command's outcome together with the registry it leaves behind. */
  datatype Response = Response(launch: Launch, after: Registry)

  /** The OS as an oracle: given the current registry and a command, the
      command's outcome and the registry afterwards. */
  type Executor = (Registry, Command) -> Response

  /** The names `ServiceController.GetServices()` lists, in order. */
  function Names(entries: seq<Entry>): (names: seq<string>)
    ensures |names| == |entries|
    ensures forall i :: 0 <= i < |entries| ==> names[i] == entries[i].name
  {
    seq(|entries|, i requires 0 <= i < |entries| => entries[i].name)
  }

  /** `ServiceController.GetServices()`: the listing, or the fault it throws. */
  function GetServices(reg: Registry): Try<seq<string>> {
    match reg.fault
    case Some(m) => Threw(m)
    case None => Ok(Names(reg.entries))
  }

  /** The position of the first entry whose name matches `name` under
      ASCII ignore-case comparison, the way the OS resolves a service
      name. */
  function IndexOf(entries: seq<Entry>, name: string): (r: Option<nat>)
    ensures r.Some? ==> r.value < |entries| && EqualsIgnoreCase(entries[r.value].name, name)
    ensures r.Some? ==> forall j :: 0 <= j < r.value ==> !EqualsIgnoreCase(entries[j].name, name)
    ensures r.None? <==> forall j :: 0 <= j < |entries| ==> !EqualsIgnoreCase(entries[j].name, name)
  {
    if |entries| == 0 then None
    else if SameIgnoringCase(entries[0].name, name) then Some(0)
    else
      match IndexOf(entries[1..], name)
      case None => None
      case Some(k) => Some(k + 1)
  }

  /** The message .NET's `ServiceController` throws with when the named
      service does not exist. */
  function NotFoundMessage(name: string): string {
    "Service " + name + " was not found on computer '.'."
  }

  /** `new ServiceController(name).Status`: throws on a registry fault, for a
      name no installed service matches, and for an unreadable entry. */
  function ReadStatus(reg: Registry, name: string): (r: Try<ScmStatus>)
    ensures reg.fault.Some? ==> r == Threw(reg.fault.value)
    ensures r.Ok? ==> exists i :: 0 <= i < |reg.entries| && EqualsIgnoreCase(reg.entries[i].name, name)
  {
    match reg.fault
    case Some(m) => Threw(m)
    case None =>
      match IndexOf(reg.entries, name)
      case None => Threw(NotFoundMessage(name))
      case Some(i) =>
        match reg.entries[i].probe
        case Readable(s) => Ok(s)
        case Unreadable(m) => Threw(m)
  }
}
