/** The documents of the `pipeline_stats` collection, the aggregate rows the `$group` stage
    produces, and the requests and responses of the three store operations. */
module Models {
  import opened GoInt64

  /** The four counters of a report, or their sums over several reports. */
  datatype Counters = Counters(recordsHandled: int, bytesHandled: int, numErrors: int, numRetries: int)
  {
    /** Field-wise addition. */
    function Plus(other: Counters): Counters
    {
      Counters(recordsHandled + other.recordsHandled, bytesHandled + other.bytesHandled,
               numErrors + other.numErrors, numRetries + other.numRetries)
    }
  }

  const NoCounts := Counters(0, 0, 0, 0)

  /** Each field reduced to int64, as Go's `+=` leaves it. */
  function WrapCounters(c: Counters): Counters
  {
    Counters(Wrap(c.recordsHandled), Wrap(c.bytesHandled), Wrap(c.numErrors), Wrap(c.numRetries))
  }

  /** One stored report (a `PipelineStat` document). The store-assigned `_id` is not modelled. */
  datatype PipelineStat = PipelineStat(
    pipelineId: string,
    timestamp: Int64,
    recordsHandled: Int64,
    bytesHandled: Int64,
    numErrors: Int64,
    numRetries: Int64)
  {
    function Counts(): Counters
    {
      Counters(recordsHandled, bytesHandled, numErrors, numRetries)
    }
  }

  /** One row of the `$group` stage: the pipeline id (`_id`), the four `total_*` sums and, when
      requested, the pushed records (`stats`; empty when not requested). */
  datatype PipelineAggregateStats = PipelineAggregateStats(
    pipelineId: string,
    totals: Counters,
    stats: seq<PipelineStat>)

  datatype GetPipelineStatsRequest = GetPipelineStatsRequest(
    ids: seq<string>,
    fromTimestamp: Int64,
    toTimestamp: Int64,
    includeStats: bool)

  /** The global totals and the per-pipeline map. */
  datatype GetPipelineStatsResponse = GetPipelineStatsResponse(
    totals: Counters,
    stats: map<string, PipelineAggregateStats>)

  /** A report as the caller sends it: no timestamp, the server supplies it. */
  datatype ReportPipelineStatsRequest = ReportPipelineStatsRequest(
    pipelineId: string,
    recordsHandled: Int64,
    bytesHandled: Int64,
    numErrors: Int64,
    numRetries: Int64)

  datatype ClearPipelineStatsRequest = ClearPipelineStatsRequest(
    ids: seq<string>,
    fromTimestamp: Int64,
    toTimestamp: Int64)
}
