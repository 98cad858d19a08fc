/** The records of the dashboard: a pNode as reported by the cluster RPC, the
    aggregate statistics shown in the stat cards, the table's sort
    configuration and the report returned by the language model. */
module Types {

  datatype Option<+T> = None | Some(value: T)

  /** NodeStatus; the source's enum values are the strings 'Active', 'Delinquent',
      'Offline' and 'Bootstrap'. */
  datatype NodeStatus = Active | Delinquent | Offline | Bootstrap

  /** The enum's string value, as embedded in prompts and compared by `<` in
      the table sort. */
  function StatusName(s: NodeStatus): (r: string)
    ensures r != ""
  {
    match s
    case Active => "Active"
    case Delinquent => "Delinquent"
    case Offline => "Offline"
    case Bootstrap => "Bootstrap"
  }

  /** One pNode. The latency is a whole number of milliseconds and the shred
      version a whole number; disk space and uptime are `real`. Fields the
      source types as `T | null` or `T?` are options. */
  datatype PNode = PNode(
    identityPubkey: string,
    gossipAddr: string,
    rpcAddr: Option<string>,
    version: Option<string>,
    shredVersion: Option<int>,
    status: NodeStatus,
    latency: nat,
    location: Option<string>,
    diskSpace: Option<real>,
    uptime: Option<real>
  )

  datatype NetworkStats = NetworkStats(
    totalNodes: nat,
    activeNodes: nat,
    totalStorage: real,
    avgLatency: real
  )

  /** `keyof PNode`: the column a table sort uses. */
  datatype SortKey =
    | IdentityPubkey | GossipAddr | RpcAddr | Version | ShredVersion
    | Status | Latency | Location | DiskSpace | Uptime

  datatype SortDirection = Asc | Desc

  datatype SortConfig = SortConfig(key: SortKey, direction: SortDirection)

  /** The report the model is asked to return. */
  datatype AIReport = AIReport(summary: string, healthScore: real, recommendations: seq<string>)
}
