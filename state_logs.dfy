/** Rows of a digital-line state log, shared by the harp and the Open Ephys sides. */
module StateLogs {

  /** One row of a state table: the `timestamp` (seconds on the recording
      device's clock) and the `state` column (0 or 1 for a TTL line). */
  datatype StateSample = StateSample(timestamp: real, state: int)

  /** The `timestamp` column of a log. */
  function Timestamps(log: seq<StateSample>): seq<real>
  {
    seq(|log|, i requires 0 <= i < |log| => log[i].timestamp)
  }

  /** The `state` column of a log. */
  function States(log: seq<StateSample>): seq<int>
  {
    seq(|log|, i requires 0 <= i < |log| => log[i].state)
  }

  /** Rows are in non-decreasing timestamp order. */
  predicate SortedByTime(log: seq<StateSample>)
  {
    forall i, j :: 0 <= i < j < |log| ==> log[i].timestamp <= log[j].timestamp
  }

  /** Every row holds a TTL level, 0 or 1. */
  predicate IsBinary(log: seq<StateSample>)
  {
    forall i :: 0 <= i < |log| ==> log[i].state == 0 || log[i].state == 1
  }
}
