/** Rollout logs of one coding agent: cumulative counters as of successive moments, and the fork
    lineage of each session. */
module CodexTypes {
  import opened Common

  datatype Totals = Totals(input: int, cached: int, output: int)

  /** A time of None stands for a missing timestamp. */
  datatype Record = Record(time: Option<int>, model: string, total: Totals)

  datatype Rollout = Rollout(sessionID: string, parentID: string, fork: bool, startedAt: Option<int>,
                             metadataValid: bool, complete: bool, usage: seq<Record>)

  function TotalsOf(usage: seq<Record>): (r: seq<Totals>)
    ensures |r| == |usage| && forall i :: 0 <= i < |usage| ==> r[i] == usage[i].total
  {
    seq(|usage|, i requires 0 <= i < |usage| => usage[i].total)
  }
}
