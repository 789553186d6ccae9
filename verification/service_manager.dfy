/** One managed Windows service: the two status probes and the five
    lifecycle operations. Each operation returns the `(success, message)`
    pair the window shows, the commands it launched (in launch order) and the
    registry it leaves behind. Every exception an operation could meet is a
    `Threw` or `LaunchFailed` value here, and each one is turned into a
    failed result; no operation has a way to fail other than by its result. */
module ServiceManager {
  import opened Wrappers
  import opened Text
  import opened Scm
  import opened ServiceConfigs
  import opened Commands

  datatype LifecycleResult = LifecycleResult(success: bool, message: string)

  /** A finished lifecycle operation: its result, the log of commands it
      launched, and the registry afterwards. */
  datatype Run = Run(result: LifecycleResult, issued: seq<Command>, after: Registry)

  const InstallSucceededMessage: string := "服务安装成功"
  const InstallFailedMessage: string := "服务安装失败"
  const InstallErrorPrefix: string := "安装服务失败："
  const UninstallSucceededMessage: string := "服务卸载成功"
  const UninstallFailedMessage: string := "服务卸载失败"
  const UninstallErrorPrefix: string := "卸载服务失败："
  const NotInstalledMessage: string := "服务未安装，请先安装服务"
  const StartedMessage: string := "服务已启动"
  const StartFailedMessage: string := "服务启动失败"
  const AlreadyRunningMessage: string := "服务已在运行"
  const StartErrorPrefix: string := "启动服务失败："
  const StoppedMessage: string := "服务已停止"
  const StopFailedMessage: string := "服务停止失败"
  const NotRunningMessage: string := "服务未在运行"
  const StopErrorPrefix: string := "停止服务失败："

  /** Whether some listed name matches `name`, ignoring case. */
  function AnyMatches(names: seq<string>, name: string): (b: bool)
    ensures b <==> exists i :: 0 <= i < |names| && EqualsIgnoreCase(names[i], name)
  {
    if |names| == 0 then false
    else if SameIgnoringCase(names[0], name) then true
    else
      var rest := AnyMatches(names[1..], name);
      assert forall i :: 1 <= i < |names| ==> names[i] == names[1..][i - 1];
      rest
  }

  /** The service exists iff the registry can be listed and one of its
      names equals `serviceName` under ASCII ignore-case comparison; a
      failing listing reads as "does not exist". */
  function IsServiceExists(reg: Registry, serviceName: string): (b: bool)
    ensures b <==> reg.fault.None? && exists i :: 0 <= i < |reg.entries| && EqualsIgnoreCase(reg.entries[i].name, serviceName)
  {
    match GetServices(reg)
    case Threw(_) => false
    case Ok(names) => AnyMatches(names, serviceName)
  }

  /** Running iff the status read yields `Running`; a missing service or a
      failing read reads as "not running". */
  function IsServiceRunning(reg: Registry, serviceName: string): (b: bool)
    ensures b ==> IsServiceExists(reg, serviceName)
    ensures b <==> ReadStatus(reg, serviceName) == Ok(Running)
  {
    if !IsServiceExists(reg, serviceName) then false
    else
      match ReadStatus(reg, serviceName)
      case Threw(_) => false
      case Ok(s) => s == Running
  }

  /** `r` is what the source makes of launching a command that answered
      `resp`: exit code 0 is success with `succeeded`, any other exit code is
      failure with `failed`, and a launch that threw is failure with
      `errorPrefix` followed by the exception's message (and nothing ran). */
  ghost predicate Translates(resp: Response, reg: Registry, r: Run,
                             succeeded: string, failed: string, errorPrefix: string)
  {
    match resp.launch
    case Exited(code) =>
      && r.result == LifecycleResult(code == 0, if code == 0 then succeeded else failed)
      && r.after == resp.after
    case LaunchFailed(m) =>
      && r.result == LifecycleResult(false, errorPrefix + m)
      && r.after == reg
  }

  /** Launch one command and wait for it. */
  function Execute(exec: Executor, reg: Registry, cmd: Command,
                   succeeded: string, failed: string, errorPrefix: string): (r: Run)
    ensures r.issued == [cmd]
    ensures r.result.success <==> exec(reg, cmd).launch == Exited(0)
    ensures Translates(exec(reg, cmd), reg, r, succeeded, failed, errorPrefix)
  {
    var resp := exec(reg, cmd);
    match resp.launch
    case Exited(code) =>
      Run(if code == 0 then LifecycleResult(true, succeeded) else LifecycleResult(false, failed),
          [cmd], resp.after)
    case LaunchFailed(m) =>
      Run(LifecycleResult(false, errorPrefix + m), [cmd], reg)
  }

  /** `sc.exe create`, issued whatever the service's current state. */
  function InstallService(cfg: ServiceConfig, reg: Registry, exec: Executor): (r: Run)
    ensures r.issued == [InstallCommand(cfg)]
    ensures r.result.success <==> exec(reg, InstallCommand(cfg)).launch == Exited(0)
    ensures Translates(exec(reg, InstallCommand(cfg)), reg, r,
                       InstallSucceededMessage, InstallFailedMessage, InstallErrorPrefix)
  {
    Execute(exec, reg, InstallCommand(cfg),
            InstallSucceededMessage, InstallFailedMessage, InstallErrorPrefix)
  }

  /** `sc.exe delete`, issued whatever the service's current state. */
  function UninstallService(cfg: ServiceConfig, reg: Registry, exec: Executor): (r: Run)
    ensures r.issued == [UninstallCommand(cfg.serviceName)]
    ensures r.result.success <==> exec(reg, UninstallCommand(cfg.serviceName)).launch == Exited(0)
    ensures Translates(exec(reg, UninstallCommand(cfg.serviceName)), reg, r,
                       UninstallSucceededMessage, UninstallFailedMessage, UninstallErrorPrefix)
  {
    Execute(exec, reg, UninstallCommand(cfg.serviceName),
            UninstallSucceededMessage, UninstallFailedMessage, UninstallErrorPrefix)
  }

  /** `net start`, but only for an installed service whose status reads as
      something other than `Running`. */
  function StartService(cfg: ServiceConfig, reg: Registry, exec: Executor): (r: Run)
    ensures !IsServiceExists(reg, cfg.serviceName) ==>
              r == Run(LifecycleResult(false, NotInstalledMessage), [], reg)
    ensures IsServiceRunning(reg, cfg.serviceName) ==>
              r == Run(LifecycleResult(true, AlreadyRunningMessage), [], reg)
    ensures IsServiceExists(reg, cfg.serviceName) && ReadStatus(reg, cfg.serviceName).Threw? ==>
              r == Run(LifecycleResult(false, StartErrorPrefix + ReadStatus(reg, cfg.serviceName).message), [], reg)
    ensures r.issued != [] <==>
              IsServiceExists(reg, cfg.serviceName) && ReadStatus(reg, cfg.serviceName).Ok?
              && ReadStatus(reg, cfg.serviceName).value != Running
    ensures r.issued != [] ==>
              && r.issued == [StartCommand(cfg.serviceName)]
              && Translates(exec(reg, StartCommand(cfg.serviceName)), reg, r,
                            StartedMessage, StartFailedMessage, StartErrorPrefix)
    ensures r.issued == [] ==> r.after == reg
  {
    if !IsServiceExists(reg, cfg.serviceName) then
      Run(LifecycleResult(false, NotInstalledMessage), [], reg)
    else
      match ReadStatus(reg, cfg.serviceName)
      case Threw(m) => Run(LifecycleResult(false, StartErrorPrefix + m), [], reg)
      case Ok(s) =>
        if s != Running then
          Execute(exec, reg, StartCommand(cfg.serviceName),
                  StartedMessage, StartFailedMessage, StartErrorPrefix)
        else
          Run(LifecycleResult(true, AlreadyRunningMessage), [], reg)
  }

  /** `net stop`, but only when the status reads as `Running`. There is no
      existence check: for a missing service the status read throws and the
      result is a failure. */
  function StopService(cfg: ServiceConfig, reg: Registry, exec: Executor): (r: Run)
    ensures ReadStatus(reg, cfg.serviceName).Threw? ==>
              r == Run(LifecycleResult(false, StopErrorPrefix + ReadStatus(reg, cfg.serviceName).message), [], reg)
    ensures !IsServiceExists(reg, cfg.serviceName) ==> !r.result.success && r.issued == []
    ensures ReadStatus(reg, cfg.serviceName).Ok? && !IsServiceRunning(reg, cfg.serviceName) ==>
              r == Run(LifecycleResult(true, NotRunningMessage), [], reg)
    ensures r.issued != [] <==> IsServiceRunning(reg, cfg.serviceName)
    ensures r.issued != [] ==>
              && r.issued == [StopCommand(cfg.serviceName)]
              && Translates(exec(reg, StopCommand(cfg.serviceName)), reg, r,
                            StoppedMessage, StopFailedMessage, StopErrorPrefix)
    ensures r.issued == [] ==> r.after == reg
  {
    match ReadStatus(reg, cfg.serviceName)
    case Threw(m) => Run(LifecycleResult(false, StopErrorPrefix + m), [], reg)
    case Ok(s) =>
      if s == Running then
        Execute(exec, reg, StopCommand(cfg.serviceName),
                StoppedMessage, StopFailedMessage, StopErrorPrefix)
      else
        Run(LifecycleResult(true, NotRunningMessage), [], reg)
  }

  /** Stop, then (after the settle delay, which takes no part in the model)
      start on the registry the stop left behind. A failed stop is returned
      as it is. */
  function RestartService(cfg: ServiceConfig, reg: Registry, exec: Executor): (r: Run)
    ensures !IsServiceExists(reg, cfg.serviceName) ==>
              r == Run(LifecycleResult(false, NotInstalledMessage), [], reg)
    ensures IsServiceExists(reg, cfg.serviceName) && !StopService(cfg, reg, exec).result.success ==>
              r == StopService(cfg, reg, exec)
    ensures IsServiceExists(reg, cfg.serviceName) && StopService(cfg, reg, exec).result.success ==>
              var stop := StopService(cfg, reg, exec);
              var start := StartService(cfg, stop.after, exec);
              r == Run(start.result, stop.issued + start.issued, start.after)
    ensures forall c :: c in r.issued ==>
              c == StopCommand(cfg.serviceName) || c == StartCommand(cfg.serviceName)
  {
    if !IsServiceExists(reg, cfg.serviceName) then
      Run(LifecycleResult(false, NotInstalledMessage), [], reg)
    else
      var stop := StopService(cfg, reg, exec);
      if !stop.result.success then stop
      else
        var start := StartService(cfg, stop.after, exec);
        Run(start.result, stop.issued + start.issued, start.after)
  }

  /** The five lifecycle operations, as the window's buttons name them. */
  datatype Operation = Install | Uninstall | Start | Stop | Restart

  function Perform(op: Operation, cfg: ServiceConfig, reg: Registry, exec: Executor): Run {
    match op
    case Install => InstallService(cfg, reg, exec)
    case Uninstall => UninstallService(cfg, reg, exec)
    case Start => StartService(cfg, reg, exec)
    case Stop => StopService(cfg, reg, exec)
    case Restart => RestartService(cfg, reg, exec)
  }

  /** The messages a failed `op` can carry: a fixed message naming the cause,
      or an operation-specific prefix followed by an exception's message. */
  ghost predicate IsFailureMessage(op: Operation, m: string)
    decreases op.Restart?
  {
    match op
    case Install => m == InstallFailedMessage || InstallErrorPrefix <= m
    case Uninstall => m == UninstallFailedMessage || UninstallErrorPrefix <= m
    case Start => m == NotInstalledMessage || m == StartFailedMessage || StartErrorPrefix <= m
    case Stop => m == StopFailedMessage || StopErrorPrefix <= m
    case Restart => IsFailureMessage(Start, m) || IsFailureMessage(Stop, m)
  }

  /** The messages a successful `op` can carry. */
  ghost predicate IsSuccessMessage(op: Operation, m: string)
    decreases op.Restart?
  {
    match op
    case Install => m == InstallSucceededMessage
    case Uninstall => m == UninstallSucceededMessage
    case Start => m == StartedMessage || m == AlreadyRunningMessage
    case Stop => m == StoppedMessage || m == NotRunningMessage
    case Restart => IsSuccessMessage(Start, m)
  }

  /** Every outcome of every operation, including each exception it meets,
      ends in a result whose message says what happened. */
  lemma MessagesNameTheOutcome(op: Operation, cfg: ServiceConfig, reg: Registry, exec: Executor)
    ensures var r := Perform(op, cfg, reg, exec).result;
            if r.success then IsSuccessMessage(op, r.message) else IsFailureMessage(op, r.message)
  {
  }

  /** Two names that differ only in case find the same service. */
  lemma ExistenceIgnoresCase(reg: Registry, a: string, b: string)
    requires EqualsIgnoreCase(a, b)
    ensures IsServiceExists(reg, a) == IsServiceExists(reg, b)
  {
  }

  /** A registry that cannot be queried shows every service as not
      installed and not running. */
  lemma ProbeFaultIsConservative(reg: Registry, name: string)
    requires reg.fault.Some?
    ensures !IsServiceExists(reg, name) && !IsServiceRunning(reg, name)
  {
  }

  /** When the stop step of a restart fails, no start command is launched
      and the restart's result is the stop's result, word for word. */
  lemma RestartStopsBeforeStarting(cfg: ServiceConfig, reg: Registry, exec: Executor)
    requires IsServiceExists(reg, cfg.serviceName)
    requires !StopService(cfg, reg, exec).result.success
    ensures StartCommand(cfg.serviceName) !in RestartService(cfg, reg, exec).issued
    ensures RestartService(cfg, reg, exec).result == StopService(cfg, reg, exec).result
  {
  }

  /** A restart launches each of its two commands at most once, the stop
      always before the start. */
  lemma RestartIssuesStopThenStart(cfg: ServiceConfig, reg: Registry, exec: Executor)
    ensures var issued := RestartService(cfg, reg, exec).issued;
            issued in {[], [StopCommand(cfg.serviceName)], [StartCommand(cfg.serviceName)],
                       [StopCommand(cfg.serviceName), StartCommand(cfg.serviceName)]}
  {
    if IsServiceExists(reg, cfg.serviceName) {
      var stop := StopService(cfg, reg, exec);
      if stop.result.success {
        var start := StartService(cfg, stop.after, exec);
        var r := RestartService(cfg, reg, exec);
        assert r.issued == stop.issued + start.issued;
        if stop.issued == [] {
          assert r.issued == start.issued;
        } else {
          if start.issued == [] {
            assert r.issued == [StopCommand(cfg.serviceName)];
          } else {
            assert r.issued == [StopCommand(cfg.serviceName), StartCommand(cfg.serviceName)];
          }
        }
      }
    }
  }

  /** Starting a service that is not installed fails the same way every
      time and never launches `net start`. */
  lemma StartWhenNotInstalledIsRepeatable(cfg: ServiceConfig, reg: Registry, exec: Executor)
    requires !IsServiceExists(reg, cfg.serviceName)
    ensures var first := StartService(cfg, reg, exec);
            var second := StartService(cfg, first.after, exec);
            && first.result == second.result == LifecycleResult(false, NotInstalledMessage)
            && first.issued + second.issued == []
  {
  }
}
