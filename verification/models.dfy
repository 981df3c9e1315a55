/**
 The records exchanged between agents and the coordinator: the registration
 record of an agent, the health snapshot an agent reports, and the status
 record the coordinator keeps per agent.
 */
module Models {

  /** A registered agent: name, declared port, callback URL and key. */
  datatype ClientInfo = ClientInfo(name: string, port: int, url: string, key: string)

  /** CPU part of a snapshot: core count, total and per-core utilisation. */
  datatype CpuInfo = CpuInfo(cores: int, utilization: nat, coreUtilization: seq<nat>)

  /** Memory part of a snapshot, in bytes. */
  datatype MemInfo = MemInfo(procUsed: nat, procTotal: nat, sysTotal: nat)

  /** Network part of a snapshot: the rolling average response time. */
  datatype NetworkInfo = NetworkInfo(averageTime: real)

  /** The health snapshot an agent reports about itself. */
  datatype HealthStatus = HealthStatus(
    cpu: CpuInfo,
    mem: MemInfo,
    network: NetworkInfo,
    down: bool,
    status: string)

  /** What the coordinator stores per agent: the agent's name, its latest snapshot and the time it was taken. */
  datatype StatusRecord = StatusRecord(clientName: string, data: HealthStatus, updated: int)

  const ZeroCpu := CpuInfo(0, 0, [])
  const ZeroMem := MemInfo(0, 0, 0)
  const ZeroNetwork := NetworkInfo(0.0)

  /** Go's zero value of a snapshot. */
  const ZeroHealth := HealthStatus(ZeroCpu, ZeroMem, ZeroNetwork, false, "")

  /** Go's zero value of a status record: it has the empty name. */
  const ZeroRecord := StatusRecord("", ZeroHealth, 0)

  function ClientName(c: ClientInfo): string {
    c.name
  }

  function RecordName(r: StatusRecord): string {
    r.clientName
  }
}
