# Service manager GUI: lifecycle controller and window decisions, in Dafny

This project models the decision logic of a small Windows tool that manages a
fixed set of Windows services.

- **The service manager** drives one named service. It has two probes:
  does the service exist, and is it running. It has five operations:
  install, uninstall, start, stop and restart. Each operation returns a
  `(success, message)` pair. The model states which checks short-circuit
  before any external command, which command line each operation launches,
  how an exit code becomes success or failure, how restart combines stop and
  start, and how every exception becomes a failed result.
- **The service manager window** has six decisions: the status label of a
  row, which of the five buttons are enabled, the status refresh that writes
  only changed cells, what a button click runs and shows (including the
  uninstall button's refusal of a running service), which toast kind a
  notification icon gives, and whether closing the window hides it or exits.

The operating system is abstract. `Scm.Registry` is a snapshot of the
installed services. Each service has a name and a status read, and the read
either yields one of the seven `ServiceControllerStatus` values or throws. A
registry-wide fault makes every query throw. `Scm.Executor` is an oracle. It
takes the registry and a command (`sc.exe create/delete`, `net start/stop`)
and returns the exit code, or the exception `Process.Start` throws, together
with the registry afterwards. Every operation returns a `ServiceManager.Run`.
The run holds the result, the log of commands the operation launched, and
the registry it leaves behind. So "never launches X" is a plain
postcondition about the log.

Modelling assumptions, stated where they are used:
- A status read for a name that no installed service matches throws, with
  the .NET message `Service <name> was not found on computer '.'.`. This is
  what makes `StopService` fail, and launch nothing, for a missing service.
  `StopService` does not check existence itself.
- Names are resolved the way the OS resolves them: the first entry whose
  name matches under ASCII ignore-case comparison.
- The registry changes only through the commands the operations launch.
  Between two commands of one operation it is a fixed snapshot.
- The two-second settle delay in restart does nothing in the model.

`ReferenceHost` is an idealised service control manager. In it, each command
succeeds when it makes sense for the service's state, and deleting a running
service only marks it for deletion. It is used only to state the operations
end to end (`LifecycleScenario`).

The code has no per-service busy gate. `InstallService` has no
already-installed check, and `UninstallService` has no still-running check.
The only still-running check is in the window's uninstall handler. The model
follows the code, so it has none of those checks either (`InstallService` and
`UninstallService` launch their command in every state).

## Model

| member | source | states |
|---|---|---|
| Text.SameIgnoringCase | ServiceManagerGUI/Services/ServiceManager.cs:24 | the executable name comparison agrees with ASCII ignore-case equality (same length, equal characters once ASCII letters are folded to upper case) |
| Text.CaseIsIgnored | ServiceManagerGUI/Services/ServiceManager.cs:24 | any two names of equal length whose characters agree up to the case of ASCII letters compare equal |
| Text.LengthMatters | ServiceManagerGUI/Services/ServiceManager.cs:24 | names of different lengths never compare equal |
| Text.EqualsIgnoreCaseTransitive | ServiceManagerGUI/Services/ServiceManager.cs:24 | the ignore-case comparison is transitive, so it resolves names consistently |
| Scm.IndexOf | ServiceManagerGUI/Services/ServiceManager.cs:38 | a name resolves to the first installed service that matches it ignoring case, and to none exactly when no service matches |
| Scm.ReadStatus | ServiceManagerGUI/Services/ServiceManager.cs:38-39 | a status read throws on a registry fault, and it succeeds only for a name that matches an installed service |
| ServiceConfigs.ConfiguredServices | ServiceManagerGUI/Windows/ServiceManagerForm.cs:33-47 | two services with distinct names, both backed by the same executable path |
| ServiceConfigs.ConfiguredServicesArePlain | ServiceManagerGUI/Windows/ServiceManagerForm.cs:35-46 | the configured names contain no blank or quote, and the display names no quote, so their command lines read back unambiguously |
| Commands.ParseInstall | ServiceManagerGUI/Services/ServiceManager.cs:60-61 | the `create` argument string reads back as exactly this service's name, binary path and display name |
| Commands.ParseUninstall | ServiceManagerGUI/Services/ServiceManager.cs:80 | the `delete` argument string names exactly this service |
| Commands.ParseStart | ServiceManagerGUI/Services/ServiceManager.cs:120 | the `net start` argument string names exactly this service |
| Commands.ParseStop | ServiceManagerGUI/Services/ServiceManager.cs:145 | the `net stop` argument string names exactly this service |
| Commands.CommandsDistinct | ServiceManagerGUI/Services/ServiceManager.cs:60-145 | no start command is ever a stop command, the install and uninstall commands differ, and `sc.exe` commands never coincide with `net` ones |
| ServiceManager.AnyMatches | ServiceManagerGUI/Services/ServiceManager.cs:24 | true exactly when some listed name equals the given name ignoring case |
| ServiceManager.IsServiceExists | ServiceManagerGUI/Services/ServiceManager.cs:19-30 | a service exists exactly when the registry can be listed and some installed name equals it under ASCII ignore-case; a failing listing gives false |
| ServiceManager.IsServiceRunning | ServiceManagerGUI/Services/ServiceManager.cs:32-45 | running implies existing; running exactly when the status read yields Running; a missing service or a throwing read gives false |
| ServiceManager.Execute | ServiceManagerGUI/Services/ServiceManager.cs:62-67 | one command is launched; success exactly when its exit code is 0; a launch that throws is a failure carrying the exception's message |
| ServiceManager.InstallService | ServiceManagerGUI/Services/ServiceManager.cs:55-73 | launches exactly the `sc.exe create` command in every registry state; success exactly on exit code 0; fixed messages for both outcomes, and the install prefix on an exception |
| ServiceManager.UninstallService | ServiceManagerGUI/Services/ServiceManager.cs:75-92 | launches exactly `sc.exe delete <name>` in every state, including a running service; success exactly on exit code 0 |
| ServiceManager.StartService | ServiceManagerGUI/Services/ServiceManager.cs:107-135 | not installed: fails with "not installed" and launches nothing; running: succeeds with "already running" and launches nothing; a throwing status read: fails with the start prefix; `net start` is launched exactly when the service exists and reads as not running, and then success follows exit code 0 |
| ServiceManager.StopService | ServiceManagerGUI/Services/ServiceManager.cs:137-160 | a throwing status read, a missing service included, fails with the stop prefix and launches nothing; not running: succeeds with "not running" and launches nothing; `net stop` is launched exactly when the service is running, and then success follows exit code 0 |
| ServiceManager.RestartService | ServiceManagerGUI/Services/ServiceManager.cs:162-184 | not installed: fails and launches nothing; a failed stop is returned unchanged; otherwise the start's result on the registry the stop left, with both logs in order; only the stop and start commands are ever launched |
| ServiceManager.MessagesNameTheOutcome | ServiceManagerGUI/Services/ServiceManager.cs:55-184 | every outcome of every operation, each exception path included, is a result whose message is one of that operation's success messages or names the cause of failure (a fixed message, or the operation's prefix and the exception's message) |
| ServiceManager.ExistenceIgnoresCase | ServiceManagerGUI/Services/ServiceManager.cs:23-24 | two names that differ only in case are both installed or both not |
| ServiceManager.ProbeFaultIsConservative | ServiceManagerGUI/Services/ServiceManager.cs:26-29 | when the registry cannot be queried, every service reads as not installed and not running |
| ServiceManager.RestartStopsBeforeStarting | ServiceManagerGUI/Services/ServiceManager.cs:171-175 | when the stop step fails, restart launches no start command and returns the stop's exact result |
| ServiceManager.RestartIssuesStopThenStart | ServiceManagerGUI/Services/ServiceManager.cs:166-178 | restart launches each of stop and start at most once, and the stop comes first |
| ServiceManager.StartWhenNotInstalledIsRepeatable | ServiceManagerGUI/Services/ServiceManager.cs:111-114 | starting a missing service twice fails with "not installed" both times and launches nothing |
| ServiceManagerForm.LabelTextInjective | ServiceManagerGUI/Windows/ServiceManagerForm.cs:326-329 | the three status texts are pairwise different, so comparing cell texts compares labels |
| ServiceManagerForm.GetServiceStatus | ServiceManagerGUI/Windows/ServiceManagerForm.cs:323-330 | exactly one of three labels: not installed exactly when the service does not exist, running exactly when it runs, stopped exactly when it exists and does not run |
| ServiceManagerForm.UpdateButtonStates | ServiceManagerGUI/Windows/ServiceManagerForm.cs:351-399 | no selected row: all five buttons disabled; a row without a name or with an unmanaged name: buttons unchanged; a managed row: the buttons are the ones that fit its status label |
| ServiceManagerForm.GatingPerButton | ServiceManagerGUI/Windows/ServiceManagerForm.cs:380-394 | install is enabled exactly when the service does not exist; uninstall and start exactly when it exists and is not running; stop and restart exactly when it exists and runs |
| ServiceManagerForm.GatingStaysExclusive | ServiceManagerGUI/Windows/ServiceManagerForm.cs:371-395 | re-deriving the buttons keeps start and stop from being enabled together, and keeps every other button disabled whenever install is enabled |
| ServiceManagerForm.EnabledButtonsReachTheOs | ServiceManagerGUI/Windows/ServiceManagerForm.cs:380-394 | an enabled stop button means stopping launches `net stop`; an enabled restart button means restart launches it too; an enabled start button means starting never answers "not installed" |
| ServiceManagerForm.WriteChanged | ServiceManagerGUI/Windows/ServiceManagerForm.cs:340-346 | each row's cell ends up holding its new text; a cell is written exactly when its stored value differs from the new text; unwritten rows are untouched; the written rows are listed in grid order; when nothing differs nothing is written |
| ServiceManagerForm.UpdateServiceStatuses | ServiceManagerGUI/Windows/ServiceManagerForm.cs:332-349 | every row ends up showing its service's current label text; a row's cell is written exactly when the stored value differs; unwritten rows are untouched; the buttons are re-derived afterwards |
| ServiceManagerForm.SecondTickWritesNothing | ServiceManagerGUI/Windows/ServiceManagerForm.cs:340-346 | a second refresh against an unchanged registry writes no cell; a row already showing the right text is never written |
| ServiceManagerForm.ResultToastMatchesOutcome | ServiceManagerGUI/Windows/ServiceManagerForm.cs:428-429 | the toast for a lifecycle result shows its message; it is a success toast exactly when the operation succeeded and an error toast exactly when it failed, never a warning |
| ServiceManagerForm.ToastTypeByIcon | ServiceManagerGUI/Windows/ServiceManagerForm.cs:521-526 | the error icon gives an error toast, the warning icon a warning toast, and every other icon a success toast |
| ServiceManagerForm.OnClick | ServiceManagerGUI/Windows/ServiceManagerForm.cs:416-515 | no usable selected name: nothing happens; uninstall on a running service: a warning toast, no command, buttons unchanged; otherwise the button's operation runs, its result is shown, and the buttons are re-derived on the registry it leaves |
| ServiceManagerForm.UninstallClickGuard | ServiceManagerGUI/Windows/ServiceManagerForm.cs:440-444 | clicking uninstall on a running service launches no command and shows the warning; on any other service it launches exactly `sc.exe delete` |
| ServiceManagerForm.OnFormClosing | ServiceManagerGUI/Windows/ServiceManagerForm.cs:541-562 | a user close hides to the tray exactly when some managed service shows as running, and otherwise cleans up and exits; a Windows shutdown only cleans up; any other reason does nothing; hiding shows the tray notice as a success toast |
| ReferenceHost.IdealInstall | ServiceManagerGUI/Services/ServiceManager.cs:55-73 | on a host that does not know the service, install succeeds and leaves exactly one stopped entry for it |
| ReferenceHost.IdealStart | ServiceManagerGUI/Services/ServiceManager.cs:107-135 | starting the stopped service launches `net start` once, succeeds, and leaves it running |
| ReferenceHost.IdealStop | ServiceManagerGUI/Services/ServiceManager.cs:137-160 | stopping the running service launches `net stop` once, succeeds, and leaves it stopped |
| ReferenceHost.IdealRestart | ServiceManagerGUI/Services/ServiceManager.cs:162-184 | restarting the running service launches stop then start, reports the start, and leaves it running |
| ReferenceHost.IdealUninstall | ServiceManagerGUI/Services/ServiceManager.cs:75-92 | uninstalling the service when it is not running succeeds, and afterwards it does not exist |
| ReferenceHost.IdealUninstallRunning | ServiceManagerGUI/Services/ServiceManager.cs:75-92 | uninstalling the running service issues `sc delete` without checking its state and reports success, yet it stays installed and running (marked for deletion) |
| ReferenceHost.LifecycleScenario | ServiceManagerGUI/Services/ServiceManager.cs:55-184 | start before install fails without a command; install, start, and a second start that launches nothing; restart; the uninstall button refuses the running service without a command; stop; uninstall removes it |

## Left out

- Window layout, styling, the loading overlay, tray icons and the toast's fade animation (float opacity) are not modelled. `ShowOverlayAsync` appears only through the button re-derivation it runs at the end.
- Launching processes with elevation (`runas`), `ServiceController` itself and `Thread.Sleep` are foreign OS calls. They are represented by the executor oracle, the registry snapshot and nothing, respectively.
- ServiceManager.RestartService: the catch block at ServiceManager.cs:180-183 is never produced. `IsServiceExists`, `StopService` and `StartService` catch everything themselves, and the settle delay cannot be interrupted in the model.
- Text.SameIgnoringCase: the comparison is ASCII ignore-case, not .NET's ordinal ignore-case: it folds only the ASCII letters, so two names that differ only in the case of a non-ASCII letter count as different here, while .NET treats them as equal.
- ServiceManager.IsServiceExists: the ignore-case comparison folds only the ASCII letters, so two names that differ only in the case of a non-ASCII letter count as different here. .NET's ordinal ignore-case treats them as equal.
- Scm.ReadStatus: `ServiceController` also accepts a service's display name; the model resolves service names only.
- Concurrency is not modelled: the OS does not change between a probe and the command that follows it, and two clicks cannot overlap.
- The private helper `GetServiceController` (ServiceManager.cs:47-53) is never called and is not modelled.
- The null-control guard at ServiceManagerForm.cs:353 is not modelled, because both controls exist once the window is built.
- Dictionary lookups that would throw for an unknown name (ServiceManagerForm.cs:337, 425, 440) are excluded by `RowsManaged` and `SelectionManaged`. The window fills its rows and name cells from the configured services, so the names are always known.
- What `CleanupResources` does (stop the timer, hide and dispose the icons) and `Application.Exit` are reduced to the closing decision's name. The 100 ms pause is not modelled.
- The notification's title and service-name arguments are passed but never shown; the model drops them at `ShowNotification`.
- Services/TestLogService.cs (periodic workers, cancellation, bounded join) is not part of this model, because it is concurrent periodic I/O.
- Services/SqlService.cs, Services/MySqlService.cs and Services/HttpService.cs are not part of this model. They are thin wrappers over client libraries.
- ServiceManagerGUI/Services/LogManager.cs is not part of this model; it only writes to the event log.
- ServiceManagerGUI/Program.cs is not part of this model; it only switches between window mode and service mode.
