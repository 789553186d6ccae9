/** The immutable descriptor of one managed service. */
module ServiceConfigs {

  /** Name (the key the OS knows the service by), display name, description
      and the path of the executable that backs the service. */
  datatype ServiceConfig = ServiceConfig(
    serviceName: string,
    displayName: string,
    description: string,
    executablePath: string)

  /** A name `sc.exe` and `net` read as a single argument: no blanks, no
      quotes. */
  predicate IsToken(s: string) {
    ' ' !in s && '"' !in s
  }

  /** A value that can sit between the double quotes `sc.exe create` puts
      around the binary path and the display name. */
  predicate IsQuotable(s: string) {
    '"' !in s
  }

  /** A descriptor whose install command splits back into its parts. */
  predicate IsPlain(cfg: ServiceConfig) {
    IsToken(cfg.serviceName) && IsQuotable(cfg.executablePath) && IsQuotable(cfg.displayName)
  }

  /** The services the window manages, both backed by the same executable
      (the window's own program, at `executablePath`). */
  function ConfiguredServices(executablePath: string): (cs: seq<ServiceConfig>)
    ensures |cs| == 2
    ensures cs[0].serviceName != cs[1].serviceName
    ensures forall i :: 0 <= i < |cs| ==> cs[i].executablePath == executablePath
  {
    [ ServiceConfig("DotNetTestLogService", "测试日志服务", "用于测试的Windows服务", executablePath),
      ServiceConfig("MySqlTestService", "MySQL测试服务", "用于测试MySQL连接的Windows服务", executablePath) ]
  }

  /** Every configured service gives `sc.exe` a well-formed install command
      line, provided the executable's path has no double quote in it. */
  lemma ConfiguredServicesArePlain(executablePath: string)
    requires IsQuotable(executablePath)
    ensures forall c :: c in ConfiguredServices(executablePath) ==> IsPlain(c)
  {
    assert ' ' !in "DotNetTestLogService" && '"' !in "DotNetTestLogService";
    assert ' ' !in "MySqlTestService" && '"' !in "MySqlTestService";
    assert '"' !in "测试日志服务" && '"' !in "MySQL测试服务";
  }
}
