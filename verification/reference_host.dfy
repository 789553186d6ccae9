/** An idealised service control manager, used to state the lifecycle
    operations and the window's uninstall guard end to end. Each command
    succeeds when it makes sense for the named service's state, with the
    Windows error codes otherwise; deleting a running service only marks it
    for deletion, so it stays listed. It is a reference environment, not a
    claim about how Windows behaves in every corner. */
module ReferenceHost {
  import opened Wrappers
  import opened Text
  import opened Scm
  import opened ServiceConfigs
  import opened Commands
  import opened ServiceManager
  import opened ServiceManagerForm

  const ErrorServiceExists: int := 1073
  const ErrorServiceDoesNotExist: int := 1060
  const NetCommandFailed: int := 2
  const UsageError: int := 1

  /** The registry with entry `i`'s status replaced by `s`. */
  function SetStatus(reg: Registry, i: nat, s: ScmStatus): Registry
    requires i < |reg.entries|
  {
    Registry(reg.entries[i := Entry(reg.entries[i].name, Readable(s))], reg.fault)
  }

  /** The reference host's answer to a command. */
  function Ideal(reg: Registry, cmd: Command): Response {
    match Parse(cmd)
    case None => Response(Exited(UsageError), reg)
    case Some(Create(n, _, _)) =>
      if IndexOf(reg.entries, n).Some? then Response(Exited(ErrorServiceExists), reg)
      else Response(Exited(0), Registry(reg.entries + [Entry(n, Readable(Stopped))], reg.fault))
    case Some(Delete(n)) =>
      (match IndexOf(reg.entries, n)
       case None => Response(Exited(ErrorServiceDoesNotExist), reg)
       case Some(i) =>
         if reg.entries[i].probe == Readable(Running) then Response(Exited(0), reg)
         else Response(Exited(0), Registry(reg.entries[..i] + reg.entries[i + 1..], reg.fault)))
    case Some(NetStart(n)) =>
      (match IndexOf(reg.entries, n)
       case Some(i) =>
         if reg.entries[i].probe.Readable? && reg.entries[i].probe.status != Running
         then Response(Exited(0), SetStatus(reg, i, Running))
         else Response(Exited(NetCommandFailed), reg)
       case None => Response(Exited(NetCommandFailed), reg))
    case Some(NetStop(n)) =>
      (match IndexOf(reg.entries, n)
       case Some(i) =>
         if reg.entries[i].probe == Readable(Running)
         then Response(Exited(0), SetStatus(reg, i, Stopped))
         else Response(Exited(NetCommandFailed), reg)
       case None => Response(Exited(NetCommandFailed), reg))
  }

  /** Entry `i` is the one and only entry the OS resolves `name` to. */
  ghost predicate Sole(reg: Registry, name: string, i: nat) {
    && reg.fault.None?
    && i < |reg.entries|
    && forall j :: 0 <= j < |reg.entries| ==> (EqualsIgnoreCase(reg.entries[j].name, name) <==> j == i)
  }

  lemma SoleResolves(reg: Registry, name: string, i: nat)
    requires Sole(reg, name, i)
    ensures IndexOf(reg.entries, name) == Some(i)
    ensures IsServiceExists(reg, name)
    ensures ReadStatus(reg, name) == (match reg.entries[i].probe
                                      case Readable(s) => Ok(s)
                                      case Unreadable(m) => Threw(m))
  {
    var r := IndexOf(reg.entries, name);
    assert EqualsIgnoreCase(reg.entries[i].name, name);
    if r.Some? {
      assert EqualsIgnoreCase(reg.entries[r.value].name, name);
    }
  }

  lemma SetStatusKeepsSole(reg: Registry, name: string, i: nat, s: ScmStatus)
    requires Sole(reg, name, i)
    ensures Sole(SetStatus(reg, i, s), name, i)
    ensures SetStatus(reg, i, s).entries[i].probe == Readable(s)
  {
  }

  /** Installing a service the host does not know adds it, stopped. */
  lemma IdealInstall(cfg: ServiceConfig, reg: Registry)
    requires IsPlain(cfg) && reg.fault.None? && !IsServiceExists(reg, cfg.serviceName)
    ensures var r := InstallService(cfg, reg, Ideal);
            && r.result == LifecycleResult(true, InstallSucceededMessage)
            && r.issued == [InstallCommand(cfg)]
            && Sole(r.after, cfg.serviceName, |reg.entries|)
            && r.after.entries[|reg.entries|].probe == Readable(Stopped)
  {
    ParseInstall(cfg);
    EqualsIgnoreCaseReflexive(cfg.serviceName);
    var after := Registry(reg.entries + [Entry(cfg.serviceName, Readable(Stopped))], reg.fault);
    assert Ideal(reg, InstallCommand(cfg)) == Response(Exited(0), after);
  }

  /** Starting the stopped service makes it running. */
  lemma IdealStart(cfg: ServiceConfig, reg: Registry, i: nat)
    requires IsToken(cfg.serviceName) && Sole(reg, cfg.serviceName, i)
    requires reg.entries[i].probe == Readable(Stopped)
    ensures StartService(cfg, reg, Ideal) ==
              Run(LifecycleResult(true, StartedMessage), [StartCommand(cfg.serviceName)], SetStatus(reg, i, Running))
  {
  }

  /** Stopping the running service makes it stopped. */
  lemma IdealStop(cfg: ServiceConfig, reg: Registry, i: nat)
    requires IsToken(cfg.serviceName) && Sole(reg, cfg.serviceName, i)
    requires reg.entries[i].probe == Readable(Running)
    ensures StopService(cfg, reg, Ideal) ==
              Run(LifecycleResult(true, StoppedMessage), [StopCommand(cfg.serviceName)], SetStatus(reg, i, Stopped))
  {
    SoleResolves(reg, cfg.serviceName, i);
    ParseStop(cfg.serviceName);
  }

  /** Restarting the running service stops and starts it once each and
      reports the start. */
  lemma IdealRestart(cfg: ServiceConfig, reg: Registry, i: nat)
    requires IsToken(cfg.serviceName) && Sole(reg, cfg.serviceName, i)
    requires reg.entries[i].probe == Readable(Running)
    ensures RestartService(cfg, reg, Ideal) ==
              Run(LifecycleResult(true, StartedMessage),
                  [StopCommand(cfg.serviceName), StartCommand(cfg.serviceName)],
                  SetStatus(reg, i, Running))
  {
    SoleResolves(reg, cfg.serviceName, i);
    IdealStop(cfg, reg, i);
    var stopped := SetStatus(reg, i, Stopped);
    SetStatusKeepsSole(reg, cfg.serviceName, i, Stopped);
    IdealStart(cfg, stopped, i);
    assert SetStatus(stopped, i, Running) == SetStatus(reg, i, Running);
  }

  /** Uninstalling a service that is not running removes it: afterwards it
      does not exist. */
  lemma IdealUninstall(cfg: ServiceConfig, reg: Registry, i: nat)
    requires IsToken(cfg.serviceName) && Sole(reg, cfg.serviceName, i)
    requires reg.entries[i].probe != Readable(Running)
    ensures var r := UninstallService(cfg, reg, Ideal);
            && r.result == LifecycleResult(true, UninstallSucceededMessage)
            && r.issued == [UninstallCommand(cfg.serviceName)]
            && !IsServiceExists(r.after, cfg.serviceName)
  {
    SoleResolves(reg, cfg.serviceName, i);
    ParseUninstall(cfg.serviceName);
    var es := reg.entries[..i] + reg.entries[i + 1..];
    assert Ideal(reg, UninstallCommand(cfg.serviceName)) == Response(Exited(0), Registry(es, reg.fault));
    forall j | 0 <= j < |es|
      ensures !EqualsIgnoreCase(es[j].name, cfg.serviceName)
    {
      if j < i {
        assert es[j] == reg.entries[j];
      } else {
        assert es[j] == reg.entries[j + 1];
      }
    }
  }

  /** Uninstalling a running service reports success but only marks it for
      deletion: it is still installed and still running afterwards. */
  lemma IdealUninstallRunning(cfg: ServiceConfig, reg: Registry, i: nat)
    requires IsToken(cfg.serviceName) && Sole(reg, cfg.serviceName, i)
    requires reg.entries[i].probe == Readable(Running)
    ensures var r := UninstallService(cfg, reg, Ideal);
            && r.result == LifecycleResult(true, UninstallSucceededMessage)
            && r.issued == [UninstallCommand(cfg.serviceName)]
            && IsServiceExists(r.after, cfg.serviceName)
            && IsServiceRunning(r.after, cfg.serviceName)
  {
    SoleResolves(reg, cfg.serviceName, i);
    ParseUninstall(cfg.serviceName);
    assert Ideal(reg, UninstallCommand(cfg.serviceName)) == Response(Exited(0), reg);
  }

  /** The end-to-end run: start before install fails without a command;
      install; start; a second start launches nothing; restart stops and
      starts once each; the uninstall button refuses the running service
      without a command; stop; uninstall removes the service. */
  lemma {:induction false} LifecycleScenario(cfg: ServiceConfig, reg0: Registry, prev: Buttons)
    requires IsPlain(cfg) && cfg.serviceName != ""
    requires reg0.fault.None? && !IsServiceExists(reg0, cfg.serviceName)
    ensures var n := cfg.serviceName;
            var s1 := StartService(cfg, reg0, Ideal);
            var i2 := InstallService(cfg, s1.after, Ideal);
            var s3 := StartService(cfg, i2.after, Ideal);
            var s4 := StartService(cfg, s3.after, Ideal);
            var r5 := RestartService(cfg, s4.after, Ideal);
            var c6 := OnClick(UninstallButton, RowSelected(Some(n)), prev, map[n := cfg], r5.after, Ideal);
            var t7 := StopService(cfg, c6.after, Ideal);
            var u8 := UninstallService(cfg, t7.after, Ideal);
            && s1.result == LifecycleResult(false, NotInstalledMessage) && s1.issued == []
            && i2.result == LifecycleResult(true, InstallSucceededMessage)
            && s3.result == LifecycleResult(true, StartedMessage) && s3.issued == [StartCommand(n)]
            && s4.result == LifecycleResult(true, AlreadyRunningMessage) && s4.issued == []
            && r5.result == LifecycleResult(true, StartedMessage) && r5.issued == [StopCommand(n), StartCommand(n)]
            && c6.toast == Some(Toast(RunningWarningMessage, Warning)) && c6.issued == []
            && t7.result == LifecycleResult(true, StoppedMessage)
            && u8.result == LifecycleResult(true, UninstallSucceededMessage)
            && !IsServiceExists(u8.after, n)
  {
    var n := cfg.serviceName;
    var i := |reg0.entries|;
    var s1 := StartService(cfg, reg0, Ideal);
    IdealInstall(cfg, s1.after);
    var r1 := InstallService(cfg, s1.after, Ideal).after;
    IdealStart(cfg, r1, i);
    var r2 := SetStatus(r1, i, Running);
    SetStatusKeepsSole(r1, n, i, Running);
    SoleResolves(r2, n, i);
    IdealRestart(cfg, r2, i);
    var r3 := SetStatus(r2, i, Running);
    SetStatusKeepsSole(r2, n, i, Running);
    SoleResolves(r3, n, i);
    UninstallClickGuard(RowSelected(Some(n)), prev, map[n := cfg], r3, Ideal);
    IdealStop(cfg, r3, i);
    var r4 := SetStatus(r3, i, Stopped);
    SetStatusKeepsSole(r3, n, i, Stopped);
    IdealUninstall(cfg, r4, i);
  }
}
