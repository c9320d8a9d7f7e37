/** Proxy targets as the backends describe them. */
module Types {
  import opened Text

  datatype PortMapping = PortMapping(listenPort: int, targetPort: int)

  const ON_DEMAND := "ondemand"
  const CRON := "cron"

  /** The proxy configuration of a target: the fields that decide whether it must be re-registered. */
  datatype ProxyConfig = ProxyConfig(
    allowList: seq<string>,
    blockList: seq<string>,
    idleTimeout: Option<int>,
    startTimeout: Option<int>,
    webhookUrl: string,
    dependants: seq<string>,
    cronStart: string,
    cronStop: string,
    availability: string,
    httpHealthCheck: string,
    tls: bool,
    apiKey: seq<string>,
    basicAuth: seq<string>,
    traefikHosts: seq<string>,
    traefikTcpHosts: seq<string>,
    alpnProtocols: seq<string>,
    minTlsVersion: string)

  datatype TargetInfo = TargetInfo(
    id: string,
    name: string,
    ports: seq<PortMapping>,
    udpPorts: seq<PortMapping>,
    config: ProxyConfig,
    networkIds: seq<string>,
    running: bool,
    missing: bool,
    hasHealthCheck: bool)

  /** The lifecycle mode in force: the explicit one, else cron when a schedule is given, else on-demand. */
  function EffectiveAvailability(info: TargetInfo): string {
    if info.config.availability != "" then info.config.availability
    else if info.config.cronStart != "" || info.config.cronStop != "" then CRON
    else ON_DEMAND
  }

  function EffectiveTimeout(perContainer: Option<int>, global: int): int {
    if perContainer.Some? then perContainer.value else global
  }
}
