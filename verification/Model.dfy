/** The container snapshot the kernels work on. */
module Model {
  import opened Prelude

  datatype ContainerState =
    | Created | Running | Paused | Restarting | Exited | Removing | Dead | Stopping | UnknownState

  datatype HealthState = Healthy | Unhealthy | Starting | NoHealthcheck

  datatype Metric = Cpu | Mem | NetRx | NetTx | DiskRead | DiskWrite

  datatype Container = Container(
    id: string,
    name: string,
    state: ContainerState,
    status: string,
    health: HealthState,
    stack: Option<string>,
    cpuPercent: Option<real>,
    memUsed: Option<nat>,
    netRx: Option<real>,
    netTx: Option<real>,
    diskRead: Option<real>,
    diskWrite: Option<real>)
  {
    /** The reading of one metric, if the runtime reported it. */
    function Reading(m: Metric): Option<real> {
      match m
      case Cpu => cpuPercent
      case Mem => if memUsed.Some? then Some(memUsed.value as real) else None
      case NetRx => netRx
      case NetTx => netTx
      case DiskRead => diskRead
      case DiskWrite => diskWrite
    }
  }

  /** The metric column of a trend row is text; only these six names are known. */
  datatype MetricName = Known(metric: Metric) | Other(text: string)

  /** One container, one metric, one bucket: what the bucketer emits. */
  datatype Trend = Trend(
    bucketStart: nat,
    bucketSecs: nat,
    host: string,
    id: string,
    name: string,
    stack: Option<string>,
    metric: MetricName,
    min: real,
    max: real,
    median: real,
    samples: nat)
}
