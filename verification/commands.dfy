/** The command lines the service manager launches, and a reader that takes
    them apart again. The reader is the builders' partner: it shows that each
    command line names exactly the service (and, for `create`, the binary and
    display name) it was built from. */
module Commands {
  import opened Wrappers
  import opened Scm
  import opened ServiceConfigs

  const ScExe: string := "sc.exe"
  const Net: string := "net"

  /** Arguments of `sc.exe create`: the service registered with auto start. */
  function InstallArguments(name: string, binPath: string, displayName: string): string {
    "create " + name + " binPath= \"" + binPath + "\" start= auto DisplayName= \"" + displayName + "\""
  }

  function InstallCommand(cfg: ServiceConfig): Command {
    Command(ScExe, InstallArguments(cfg.serviceName, cfg.executablePath, cfg.displayName))
  }

  function UninstallCommand(name: string): Command {
    Command(ScExe, "delete " + name)
  }

  function StartCommand(name: string): Command {
    Command(Net, "start " + name)
  }

  function StopCommand(name: string): Command {
    Command(Net, "stop " + name)
  }

  /** What a command line asks the OS for. */
  datatype Request =
    | Create(name: string, binPath: string, displayName: string)
    | Delete(name: string)
    | NetStart(name: string)
    | NetStop(name: string)

  /** `s` without its prefix `p`, when it has that prefix. */
  function StripPrefix(p: string, s: string): (r: Option<string>)
    ensures r.Some? ==> s == p + r.value
  {
    if |p| <= |s| && s[..|p|] == p then
      assert s == s[..|p|] + s[|p|..];
      Some(s[|p|..])
    else None
  }

  /** `s` split in front of its first `c` (the second part empty when `c`
      does not occur). */
  function SplitAt(s: string, c: char): (r: (string, string))
    ensures r.0 + r.1 == s
    ensures c !in r.0
    ensures |r.1| == 0 || r.1[0] == c
  {
    if |s| == 0 then ("", "")
    else if s[0] == c then ("", s)
    else
      var (a, b) := SplitAt(s[1..], c);
      assert s == [s[0]] + s[1..];
      ([s[0]] + a, b)
  }

  function ParseCreate(s: string): Option<Request> {
    var (name, r2) := SplitAt(s, ' ');
    match StripPrefix(" binPath= \"", r2)
    case None => None
    case Some(r3) =>
      var (path, r4) := SplitAt(r3, '"');
      match StripPrefix("\" start= auto DisplayName= \"", r4)
      case None => None
      case Some(r5) =>
        var (display, r6) := SplitAt(r5, '"');
        if r6 == "\"" then Some(Create(name, path, display)) else None
  }

  /** A single-name argument, as `sc.exe` and `net` read it. */
  function ParseName(s: string): Option<string> {
    if IsToken(s) then Some(s) else None
  }

  /** Reads a command line back into the request it makes. */
  function Parse(cmd: Command): Option<Request> {
    if cmd.fileName == ScExe then
      match StripPrefix("create ", cmd.arguments)
      case Some(rest) => ParseCreate(rest)
      case None =>
        match StripPrefix("delete ", cmd.arguments)
        case Some(rest) => (match ParseName(rest) case Some(n) => Some(Delete(n)) case None => None)
        case None => None
    else if cmd.fileName == Net then
      match StripPrefix("start ", cmd.arguments)
      case Some(rest) => (match ParseName(rest) case Some(n) => Some(NetStart(n)) case None => None)
      case None =>
        match StripPrefix("stop ", cmd.arguments)
        case Some(rest) => (match ParseName(rest) case Some(n) => Some(NetStop(n)) case None => None)
        case None => None
    else None
  }

  lemma StripPrefixOfConcat(p: string, s: string)
    ensures StripPrefix(p, p + s) == Some(s)
  {
  }

  lemma {:induction false} SplitAtFirst(a: string, t: string, c: char)
    requires c !in a && |t| > 0 && t[0] == c
    ensures SplitAt(a + t, c) == (a, t)
  {
    if |a| == 0 {
      assert a + t == t;
    } else {
      assert (a + t)[0] == a[0];
      assert (a + t)[1..] == a[1..] + t;
      SplitAtFirst(a[1..], t, c);
      assert [a[0]] + a[1..] == a;
    }
  }

  /** The install command of a plain descriptor reads back as a request to
      create exactly that service, with that binary and display name. */
  lemma ParseInstall(cfg: ServiceConfig)
    requires IsPlain(cfg)
    ensures Parse(InstallCommand(cfg)) == Some(Create(cfg.serviceName, cfg.executablePath, cfg.displayName))
  {
    var n, p, d := cfg.serviceName, cfg.executablePath, cfg.displayName;
    var tail3 := "\" start= auto DisplayName= \"" + d + "\"";
    var tail2 := " binPath= \"" + p + tail3;
    assert InstallArguments(n, p, d) == "create " + (n + tail2);
    assert StripPrefix("create ", InstallArguments(n, p, d)) == Some(n + tail2) by {
      StripPrefixOfConcat("create ", n + tail2);
    }
    SplitAtFirst(n, tail2, ' ');
    assert tail2 == " binPath= \"" + (p + tail3);
    StripPrefixOfConcat(" binPath= \"", p + tail3);
    SplitAtFirst(p, tail3, '"');
    assert tail3 == "\" start= auto DisplayName= \"" + (d + "\"");
    StripPrefixOfConcat("\" start= auto DisplayName= \"", d + "\"");
    SplitAtFirst(d, "\"", '"');
  }

  lemma ParseUninstall(name: string)
    requires IsToken(name)
    ensures Parse(UninstallCommand(name)) == Some(Delete(name))
  {
  }

  lemma ParseStart(name: string)
    requires IsToken(name)
    ensures Parse(StartCommand(name)) == Some(NetStart(name))
  {
  }

  lemma ParseStop(name: string)
    requires IsToken(name)
    ensures Parse(StopCommand(name)) == Some(NetStop(name))
  {
    StripPrefixOfConcat("stop ", name);
    assert ("stop " + name)[2] == 'o';
  }

  /** No start command is a stop command, whatever the two names are; and
      the two `sc.exe` commands never coincide with the two `net` ones. */
  lemma CommandsDistinct(cfg: ServiceConfig, a: string, b: string)
    ensures StartCommand(a) != StopCommand(b)
    ensures InstallCommand(cfg) != UninstallCommand(b)
    ensures InstallCommand(cfg).fileName != StartCommand(a).fileName
    ensures UninstallCommand(a).fileName != StopCommand(b).fileName
  {
    assert ("start " + a)[2] == 'a';
    assert ("stop " + b)[2] == 'o';
    assert InstallCommand(cfg).arguments[0] == 'c';
    assert UninstallCommand(b).arguments[0] == 'd';
    assert |ScExe| != |Net|;
  }
}
