/** The decisions the service manager window takes on top of the service
    manager: the status label of a row, which buttons are enabled, the
    change-only status refresh, what a button click runs and shows, and
    whether closing the window hides it or exits. Layout and painting are
    not modelled; a window state is the list of grid rows, the selection and
    the five buttons' enabled flags. */
module ServiceManagerForm {
  import opened Wrappers
  import opened Scm
  import opened ServiceConfigs
  import opened Commands
  import opened ServiceManager

  /** The three labels the status column can show. */
  datatype StatusLabel = NotInstalledLabel | RunningLabel | StoppedLabel

  /** The text written into the status cell. */
  function LabelText(l: StatusLabel): string {
    match l
    case NotInstalledLabel => "⚪ 未安装"
    case RunningLabel => "🟢 运行中"
    case StoppedLabel => "🔴 已停止"
  }

  /** Different labels have different texts, so comparing cell texts is
      comparing labels. */
  lemma LabelTextInjective(a: StatusLabel, b: StatusLabel)
    ensures LabelText(a) == LabelText(b) ==> a == b
  {
  }

  /** The status label of a managed service, from the two probes. */
  function GetServiceStatus(cfg: ServiceConfig, reg: Registry): (l: StatusLabel)
    ensures l == NotInstalledLabel <==> !IsServiceExists(reg, cfg.serviceName)
    ensures l == RunningLabel <==> IsServiceRunning(reg, cfg.serviceName)
    ensures l == StoppedLabel <==>
              IsServiceExists(reg, cfg.serviceName) && !IsServiceRunning(reg, cfg.serviceName)
  {
    if !IsServiceExists(reg, cfg.serviceName) then NotInstalledLabel
    else if IsServiceRunning(reg, cfg.serviceName) then RunningLabel
    else StoppedLabel
  }

  /** The enabled flags of the five buttons. */
  datatype Buttons = Buttons(install: bool, uninstall: bool, start: bool, stop: bool, restart: bool)

  const AllDisabled: Buttons := Buttons(false, false, false, false, false)

  /** The grid's selection: no row, or a row whose name cell may be empty. */
  datatype Selection = NoRowSelected | RowSelected(serviceName: Option<string>)

  /** Which buttons make sense for a service showing a given label: install
      a missing one, uninstall or start a stopped one, stop or restart a
      running one. */
  function EnabledFor(l: StatusLabel): Buttons {
    match l
    case NotInstalledLabel => Buttons(true, false, false, false, false)
    case StoppedLabel => Buttons(false, true, true, false, false)
    case RunningLabel => Buttons(false, false, false, true, true)
  }

  /** The gating rule, one flag per button, from the two probe results. */
  function Gate(installed: bool, running: bool): Buttons {
    Buttons(!installed, installed && !running, installed && !running, installed && running, installed && running)
  }

  /** Re-derives the buttons from the selection. With no row selected all are
      disabled; a row without a name, or with a name the window does not
      manage, leaves them as they were. */
  function UpdateButtonStates(prev: Buttons, selection: Selection,
                              managers: map<string, ServiceConfig>, reg: Registry): (b: Buttons)
    ensures selection.NoRowSelected? ==> b == AllDisabled
    ensures selection.RowSelected? && (selection.serviceName.None? || selection.serviceName.value !in managers) ==>
              b == prev
    ensures selection.RowSelected? && selection.serviceName.Some? && selection.serviceName.value in managers ==>
              b == EnabledFor(GetServiceStatus(managers[selection.serviceName.value], reg))
  {
    match selection
    case NoRowSelected => AllDisabled
    case RowSelected(None) => prev
    case RowSelected(Some(name)) =>
      if name in managers then
        var n := managers[name].serviceName;
        Gate(IsServiceExists(reg, n), IsServiceRunning(reg, n))
      else prev
  }

  /** Start and stop are never offered together, and a service that can be
      installed offers nothing else. */
  ghost predicate Exclusive(b: Buttons) {
    && !(b.start && b.stop)
    && (b.install ==> !b.uninstall && !b.start && !b.stop && !b.restart)
  }

  /** The gating, button by button, for a selected managed service. */
  lemma GatingPerButton(prev: Buttons, name: string, managers: map<string, ServiceConfig>, reg: Registry)
    requires name in managers
    ensures var n := managers[name].serviceName;
            var e, r := IsServiceExists(reg, n), IsServiceRunning(reg, n);
            UpdateButtonStates(prev, RowSelected(Some(name)), managers, reg) == Gate(e, r)
  {
  }

  /** Re-deriving the buttons keeps them exclusive. */
  lemma GatingStaysExclusive(prev: Buttons, selection: Selection,
                             managers: map<string, ServiceConfig>, reg: Registry)
    requires Exclusive(prev)
    ensures Exclusive(UpdateButtonStates(prev, selection, managers, reg))
  {
  }

  /** A grid row: the service name cell and the status cell (`None` for a
      cell without a value). */
  datatype Row = Row(serviceName: string, status: Option<string>)

  /** Every row names a service the window manages; the window builds one
      row per configured service, keyed by the same name. */
  ghost predicate RowsManaged(rows: seq<Row>, managers: map<string, ServiceConfig>) {
    forall i :: 0 <= i < |rows| ==> rows[i].serviceName in managers
  }

  /** The label a row should show now. */
  function FreshText(row: Row, managers: map<string, ServiceConfig>, reg: Registry): string
    requires row.serviceName in managers
  {
    LabelText(GetServiceStatus(managers[row.serviceName], reg))
  }

  /** The change-only write rule: row `i`'s status cell becomes `texts[i]`,
      but it is written only when the stored value differs. `written` lists
      the rows whose cell was written, in grid order. */
  method WriteChanged(rows: seq<Row>, texts: seq<string>) returns (updated: seq<Row>, written: seq<int>)
    requires |texts| == |rows|
    ensures |updated| == |rows|
    ensures forall i :: 0 <= i < |rows| ==> updated[i] == Row(rows[i].serviceName, Some(texts[i]))
    ensures forall i :: 0 <= i < |rows| ==> (i in written <==> rows[i].status != Some(texts[i]))
    ensures forall i :: 0 <= i < |rows| && i !in written ==> updated[i] == rows[i]
    ensures forall j :: 0 <= j < |written| ==> 0 <= written[j] < |rows|
    ensures forall j, k :: 0 <= j < k < |written| ==> written[j] < written[k]
    ensures (forall i :: 0 <= i < |rows| ==> rows[i].status == Some(texts[i])) ==> written == []
  {
    updated, written := [], [];
    var i := 0;
    while i < |rows|
      invariant 0 <= i <= |rows|
      invariant |updated| == i
      invariant forall j :: 0 <= j < i ==> updated[j] == Row(rows[j].serviceName, Some(texts[j]))
      invariant forall j :: 0 <= j < i ==> (j in written <==> rows[j].status != Some(texts[j]))
      invariant forall j :: 0 <= j < |written| ==> 0 <= written[j] < i
      invariant forall j, k :: 0 <= j < k < |written| ==> written[j] < written[k]
      invariant (forall j :: 0 <= j < i ==> rows[j].status == Some(texts[j])) ==> written == []
    {
      if rows[i].status != Some(texts[i]) {
        updated := updated + [Row(rows[i].serviceName, Some(texts[i]))];
        written := written + [i];
      } else {
        updated := updated + [rows[i]];
      }
      i := i + 1;
    }
  }

  /** One timer tick: every row's status cell is brought up to date with
      its service's current label, a cell being written (and repainted) only
      when its text changes; then the buttons are re-derived. */
  method UpdateServiceStatuses(rows: seq<Row>, selection: Selection, prev: Buttons,
                               managers: map<string, ServiceConfig>, reg: Registry)
    returns (updated: seq<Row>, written: seq<int>, buttons: Buttons)
    requires RowsManaged(rows, managers)
    ensures |updated| == |rows|
    ensures forall i :: 0 <= i < |rows| ==>
              updated[i] == Row(rows[i].serviceName, Some(FreshText(rows[i], managers, reg)))
    ensures forall i :: 0 <= i < |rows| ==> (i in written <==> rows[i].status != updated[i].status)
    ensures forall i :: 0 <= i < |rows| && i !in written ==> updated[i] == rows[i]
    ensures forall j :: 0 <= j < |written| ==> 0 <= written[j] < |rows|
    ensures forall j, k :: 0 <= j < k < |written| ==> written[j] < written[k]
    ensures (forall i :: 0 <= i < |rows| ==> rows[i].status == updated[i].status) ==> written == []
    ensures buttons == UpdateButtonStates(prev, selection, managers, reg)
  {
    var texts := seq(|rows|, j requires 0 <= j < |rows| && rows[j].serviceName in managers =>
                             FreshText(rows[j], managers, reg));
    updated, written := WriteChanged(rows, texts);
    buttons := UpdateButtonStates(prev, selection, managers, reg);
  }

  /** While the OS stays as it is, a second tick writes no cell at all. */
  method SecondTickWritesNothing(rows: seq<Row>, selection: Selection, prev: Buttons,
                                 managers: map<string, ServiceConfig>, reg: Registry)
    returns (first: seq<int>, second: seq<int>)
    requires RowsManaged(rows, managers)
    ensures second == []
    ensures forall i :: 0 <= i < |rows| && rows[i].status == Some(FreshText(rows[i], managers, reg)) ==>
              i !in first
  {
    var updated, buttons;
    updated, first, buttons := UpdateServiceStatuses(rows, selection, prev, managers, reg);
    var again, buttons2;
    again, second, buttons2 := UpdateServiceStatuses(updated, selection, buttons, managers, reg);
  }

  /** `ToolTipIcon`: the icon argument of a notification. */
  datatype ToolTipIcon = NoIcon | InfoIcon | WarningIcon | ErrorIcon

  /** `MessageType`: the kind of toast the window pops up. */
  datatype MessageType = Success | Error | Warning

  /** A toast as shown: its text and its kind. */
  datatype Toast = Toast(message: string, kind: MessageType)

  function ToastType(icon: ToolTipIcon): MessageType {
    match icon
    case ErrorIcon => Error
    case WarningIcon => Warning
    case _ => Success
  }

  /** The toast a notification call puts up. The title does not appear in
      it. */
  function ShowNotification(title: string, message: string, icon: ToolTipIcon): Toast {
    Toast(message, ToastType(icon))
  }

  /** The title and icon a button handler passes for a lifecycle result. */
  function ResultTitle(r: LifecycleResult): string {
    if r.success then "成功" else "错误"
  }

  function ResultIcon(r: LifecycleResult): ToolTipIcon {
    if r.success then InfoIcon else ErrorIcon
  }

  /** The toast for a lifecycle result carries the result's message and is
      a success toast exactly when the operation succeeded; a failure is
      never shown as a warning. */
  lemma ResultToastMatchesOutcome(r: LifecycleResult)
    ensures var t := ShowNotification(ResultTitle(r), r.message, ResultIcon(r));
            && t.message == r.message
            && (t.kind == Success <==> r.success)
            && (t.kind == Error <==> !r.success)
            && t.kind != Warning
  {
  }

  /** Error and warning icons keep their kind; every other icon, `None`
      included, gives a success toast. */
  lemma ToastTypeByIcon(icon: ToolTipIcon)
    ensures ToastType(icon) == Error <==> icon == ErrorIcon
    ensures ToastType(icon) == Warning <==> icon == WarningIcon
    ensures ToastType(icon) == Success <==> icon == NoIcon || icon == InfoIcon
  {
  }

  /** The five buttons of the button panel. */
  datatype Button = InstallButton | UninstallButton | StartButton | StopButton | RestartButton

  function OperationOf(b: Button): Operation {
    match b
    case InstallButton => Install
    case UninstallButton => Uninstall
    case StartButton => Start
    case StopButton => Stop
    case RestartButton => Restart
  }

  const RunningWarningTitle: string := "警告"
  const RunningWarningMessage: string := "服务正在运行，请先停止服务后再卸载！"

  /** The name in the selected row's name cell, if a row is selected. */
  function SelectedServiceName(selection: Selection): Option<string> {
    match selection
    case NoRowSelected => None
    case RowSelected(n) => n
  }

  /** A usable selected name: present and not empty. */
  predicate HasTarget(selection: Selection) {
    SelectedServiceName(selection).Some? && SelectedServiceName(selection).value != ""
  }

  /** A selected name is always one the window manages: the name cells are
      filled from the configured services. */
  ghost predicate SelectionManaged(selection: Selection, managers: map<string, ServiceConfig>) {
    HasTarget(selection) ==> SelectedServiceName(selection).value in managers
  }

  /** What a click leads to: the toast shown (if any), the commands launched,
      the registry afterwards and the buttons afterwards. */
  datatype ClickOutcome = ClickOutcome(toast: Option<Toast>, issued: seq<Command>, after: Registry, buttons: Buttons)

  /** The uninstall handler's own guard: a running service is not passed to
      the uninstall operation. */
  predicate UninstallBlocked(button: Button, cfg: ServiceConfig, reg: Registry) {
    button == UninstallButton && IsServiceRunning(reg, cfg.serviceName)
  }

  /** A button click. Without a usable selected name nothing happens. The
      uninstall button first refuses a running service with a warning.
      Otherwise the operation runs, its result is shown, and the buttons are
      re-derived once it finishes. */
  function OnClick(button: Button, selection: Selection, prev: Buttons,
                   managers: map<string, ServiceConfig>, reg: Registry, exec: Executor): (o: ClickOutcome)
    requires SelectionManaged(selection, managers)
    ensures !HasTarget(selection) ==> o == ClickOutcome(None, [], reg, prev)
    ensures HasTarget(selection) && UninstallBlocked(button, managers[SelectedServiceName(selection).value], reg) ==>
              o == ClickOutcome(Some(Toast(RunningWarningMessage, Warning)), [], reg, prev)
    ensures HasTarget(selection) && !UninstallBlocked(button, managers[SelectedServiceName(selection).value], reg) ==>
              var run := Perform(OperationOf(button), managers[SelectedServiceName(selection).value], reg, exec);
              && o.toast == Some(Toast(run.result.message, if run.result.success then Success else Error))
              && o.issued == run.issued
              && o.after == run.after
              && o.buttons == UpdateButtonStates(prev, selection, managers, run.after)
  {
    var name := SelectedServiceName(selection);
    if name.None? || name.value == "" then ClickOutcome(None, [], reg, prev)
    else
      var cfg := managers[name.value];
      if button == UninstallButton && IsServiceRunning(reg, cfg.serviceName) then
        ClickOutcome(Some(ShowNotification(RunningWarningTitle, RunningWarningMessage, WarningIcon)), [], reg, prev)
      else
        var run := Perform(OperationOf(button), cfg, reg, exec);
        var toast := ShowNotification(ResultTitle(run.result), run.result.message, ResultIcon(run.result));
        ClickOutcome(Some(toast), run.issued, run.after, UpdateButtonStates(prev, selection, managers, run.after))
  }

  /** Clicking uninstall on a running service never launches `sc.exe
      delete`; clicking it on any other service launches exactly that. */
  lemma UninstallClickGuard(selection: Selection, prev: Buttons,
                            managers: map<string, ServiceConfig>, reg: Registry, exec: Executor)
    requires SelectionManaged(selection, managers) && HasTarget(selection)
    ensures var cfg := managers[SelectedServiceName(selection).value];
            var o := OnClick(UninstallButton, selection, prev, managers, reg, exec);
            && (IsServiceRunning(reg, cfg.serviceName) ==>
                  o.issued == [] && o.toast == Some(Toast(RunningWarningMessage, Warning)))
            && (!IsServiceRunning(reg, cfg.serviceName) ==>
                  o.issued == [UninstallCommand(cfg.serviceName)])
  {
  }

  /** The stop button is enabled only for a service whose stop really
      launches `net stop`, and the start button only for an installed
      service (so its start never answers "not installed"). */
  lemma EnabledButtonsReachTheOs(prev: Buttons, name: string,
                                 managers: map<string, ServiceConfig>, reg: Registry, exec: Executor)
    requires name in managers
    ensures var b := UpdateButtonStates(prev, RowSelected(Some(name)), managers, reg);
            var cfg := managers[name];
            && (b.stop ==> StopService(cfg, reg, exec).issued == [StopCommand(cfg.serviceName)])
            && (b.restart ==> StopCommand(cfg.serviceName) in RestartService(cfg, reg, exec).issued)
            && (b.start ==> StartService(cfg, reg, exec).result.message != NotInstalledMessage)
  {
    var cfg := managers[name];
    var n := cfg.serviceName;
    if IsServiceExists(reg, n) && !IsServiceRunning(reg, n) {
      var r := StartService(cfg, reg, exec);
      if ReadStatus(reg, n).Threw? {
        assert r.result.message == StartErrorPrefix + ReadStatus(reg, n).message;
        assert r.result.message[0] == '启';
      } else {
        assert r.issued == [StartCommand(n)];
        var launch := exec(reg, StartCommand(n)).launch;
        if launch.LaunchFailed? {
          assert r.result.message[0] == '启';
        }
      }
    }
  }

  /** `CloseReason`: why the window is being closed. */
  datatype CloseReason =
    | NoReason | WindowsShutDown | MdiFormClosing | UserClosing
    | TaskManagerClosing | FormOwnerClosing | ApplicationExitCall

  /** What the closing handler does: cancel the close and hide to the tray
      (with a toast), release resources and exit, release resources and let
      the shutdown close proceed, or nothing. */
  datatype CloseDecision = HideToTray(toast: Toast) | CleanupAndExit | CleanupOnly | CloseNormally

  const TrayTitle: string := "提示"
  const TrayMessage: string := "程序已最小化到系统托盘"

  function AnyRunning(managers: map<string, ServiceConfig>, reg: Registry): bool {
    exists cfg | cfg in managers.Values :: IsServiceRunning(reg, cfg.serviceName)
  }

  /** A user close keeps the window alive (hidden) while any managed
      service shows as running, and exits otherwise; a shutdown only
      releases resources; any other reason is left alone. */
  function OnFormClosing(reason: CloseReason, managers: map<string, ServiceConfig>, reg: Registry): (d: CloseDecision)
    ensures d.HideToTray? <==>
              reason == UserClosing && exists k :: k in managers && GetServiceStatus(managers[k], reg) == RunningLabel
    ensures d == CleanupAndExit <==>
              reason == UserClosing && forall k :: k in managers ==> GetServiceStatus(managers[k], reg) != RunningLabel
    ensures d == CleanupOnly <==> reason == WindowsShutDown
    ensures d.HideToTray? ==> d.toast == Toast(TrayMessage, Success)
  {
    if reason == UserClosing then
      if AnyRunning(managers, reg) then HideToTray(ShowNotification(TrayTitle, TrayMessage, InfoIcon))
      else CleanupAndExit
    else if reason == WindowsShutDown then CleanupOnly
    else CloseNormally
  }
}
