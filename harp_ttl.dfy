/** The harp TTL state log and the dot onset/offset times read off it:
    get_ttl_state_df and get_dot_times_from_ttl in timestamps/harp/utils.py. */
module HarpTtl {
  import opened Wrappers
  import opened Slicing
  import opened StateLogs

  /** One row of an OutputSet or OutputClear register read: its timestamp and the `DO2` bit. */
  datatype RegisterSample = RegisterSample(timestamp: real, do2: bool)

  /** The positions from `from` on of the rows whose `DO2` bit is set, in increasing order. */
  function AssertedIndicesFrom(rows: seq<RegisterSample>, from: nat): (idx: seq<nat>)
    requires from <= |rows|
    ensures |idx| <= |rows| - from
    ensures forall k :: 0 <= k < |idx| ==> from <= idx[k] < |rows| && rows[idx[k]].do2
    ensures forall k, m :: 0 <= k < m < |idx| ==> idx[k] < idx[m]
    ensures forall i :: from <= i < |rows| && rows[i].do2 ==> i in idx
    decreases |rows| - from
  {
    if from == |rows| then []
    else if rows[from].do2 then [from] + AssertedIndicesFrom(rows, from + 1)
    else AssertedIndicesFrom(rows, from + 1)
  }

  /** Timestamps of the rows whose `DO2` bit is set (`ttl[ttl == True]`): one per
      such row, in row order, and nothing else. */
  function AssertedTimes(rows: seq<RegisterSample>): (ts: seq<real>)
    ensures var idx := AssertedIndicesFrom(rows, 0);
            |ts| == |idx| && forall k :: 0 <= k < |ts| ==> ts[k] == rows[idx[k]].timestamp
    ensures |ts| <= |rows|
    ensures forall t :: t in ts <==> exists i :: 0 <= i < |rows| && rows[i].do2 && rows[i].timestamp == t
  {
    var idx := AssertedIndicesFrom(rows, 0);
    var ts := seq(|idx|, k requires 0 <= k < |idx| => rows[idx[k]].timestamp);
    SelectedTimestamps(rows, idx, ts);
    ts
  }

  /** The timestamps at the selected positions are exactly those of the `DO2` rows. */
  lemma SelectedTimestamps(rows: seq<RegisterSample>, idx: seq<nat>, ts: seq<real>)
    requires forall k :: 0 <= k < |idx| ==> idx[k] < |rows| && rows[idx[k]].do2
    requires forall i :: 0 <= i < |rows| && rows[i].do2 ==> i in idx
    requires |ts| == |idx| && forall k :: 0 <= k < |ts| ==> ts[k] == rows[idx[k]].timestamp
    ensures forall t :: t in ts <==> exists i :: 0 <= i < |rows| && rows[i].do2 && rows[i].timestamp == t
  {
    forall t ensures t in ts <==> exists i :: 0 <= i < |rows| && rows[i].do2 && rows[i].timestamp == t {
      if t in ts {
        var k :| 0 <= k < |ts| && ts[k] == t;
        assert rows[idx[k]].do2 && rows[idx[k]].timestamp == t;
      }
      if exists i :: 0 <= i < |rows| && rows[i].do2 && rows[i].timestamp == t {
        var i :| 0 <= i < |rows| && rows[i].do2 && rows[i].timestamp == t;
        var k :| 0 <= k < |idx| && idx[k] == i;
        assert ts[k] == t;
      }
    }
  }

  /** A `timestamp` column with a constant `state` column beside it. */
  function Tagged(ts: seq<real>, state: int): seq<StateSample>
  {
    seq(|ts|, i requires 0 <= i < |ts| => StateSample(ts[i], state))
  }

  /** Places `x` into a time-sorted log. */
  function Insert(x: StateSample, log: seq<StateSample>): (r: seq<StateSample>)
    requires SortedByTime(log)
    ensures SortedByTime(r)
    ensures multiset(r) == multiset(log) + multiset{x}
    ensures |r| == |log| + 1
    ensures r[0] == x || (log != [] && r[0] == log[0])
  {
    if log == [] || x.timestamp <= log[0].timestamp then
      SortedCons(x, log);
      [x] + log
    else
      assert log == [log[0]] + log[1..];
      var rest := Insert(x, log[1..]);
      SortedCons(log[0], rest);
      [log[0]] + rest
  }

  /** A row no later than the head of a sorted log can go in front of it. */
  lemma SortedCons(x: StateSample, log: seq<StateSample>)
    requires SortedByTime(log)
    requires log != [] ==> x.timestamp <= log[0].timestamp
    ensures SortedByTime([x] + log)
  {
    var r := [x] + log;
    forall i, j | 0 <= i < j < |r| ensures r[i].timestamp <= r[j].timestamp {
      if i == 0 && j > 1 { assert log[0].timestamp <= log[j - 1].timestamp; }
    }
  }

  /** `sort_values(by='timestamp')`: a reordering of the log by timestamp.
      pandas' default sort is not stable, so only the order of distinct
      timestamps is fixed; this one places the earlier row of a tie first. */
  function SortByTime(log: seq<StateSample>): (r: seq<StateSample>)
    ensures SortedByTime(r)
    ensures multiset(r) == multiset(log)
    ensures |r| == |log|
  {
    if log == [] then []
    else
      assert log == [log[0]] + log[1..];
      Insert(log[0], SortByTime(log[1..]))
  }

  /** get_ttl_state_df: the set rows tagged 1 and the clear rows tagged 0 in one
      log sorted by timestamp. */
  function TtlStateLog(setRows: seq<RegisterSample>, clearRows: seq<RegisterSample>): (log: seq<StateSample>)
    ensures SortedByTime(log)
    ensures multiset(log) == multiset(Tagged(AssertedTimes(setRows), 1) + Tagged(AssertedTimes(clearRows), 0))
    ensures |log| == |AssertedTimes(setRows)| + |AssertedTimes(clearRows)|
  {
    SortByTime(Tagged(AssertedTimes(setRows), 1) + Tagged(AssertedTimes(clearRows), 0))
  }

  /** The merged log holds only the levels 0 and 1, a row of level 1 for each
      set timestamp and a row of level 0 for each clear timestamp. */
  lemma TtlStateLogRows(setRows: seq<RegisterSample>, clearRows: seq<RegisterSample>, r: StateSample)
    ensures r in TtlStateLog(setRows, clearRows) <==>
              (r.state == 1 && r.timestamp in AssertedTimes(setRows))
              || (r.state == 0 && r.timestamp in AssertedTimes(clearRows))
    ensures IsBinary(TtlStateLog(setRows, clearRows))
  {
    var setTimes, clearTimes := AssertedTimes(setRows), AssertedTimes(clearRows);
    var on, off := Tagged(setTimes, 1), Tagged(clearTimes, 0);
    var log := TtlStateLog(setRows, clearRows);
    assert r in log <==> r in multiset(log);
    assert r in log <==> r in on + off;
    TaggedMembers(setTimes, 1, r);
    TaggedMembers(clearTimes, 0, r);
    forall i | 0 <= i < |log| ensures log[i].state == 0 || log[i].state == 1 {
      assert log[i] in multiset(on + off);
      TaggedMembers(setTimes, 1, log[i]);
      TaggedMembers(clearTimes, 0, log[i]);
    }
  }

  /** A row is in a tagged column iff it carries the tag and one of the column's timestamps. */
  lemma TaggedMembers(ts: seq<real>, state: int, r: StateSample)
    ensures r in Tagged(ts, state) <==> r.state == state && r.timestamp in ts
  {
    if r.state == state && r.timestamp in ts {
      var k :| 0 <= k < |ts| && ts[k] == r.timestamp;
      assert Tagged(ts, state)[k] == r;
    }
  }

  /** |t - t0|. */
  function Distance(t: real, t0: real): real
  {
    if t >= t0 then t - t0 else t0 - t
  }

  /** `(abs(ts - t0)).idxmin()`: the first position of a timestamp nearest `t0`. */
  function NearestIndex(ts: seq<real>, t0: real): (k: nat)
    requires |ts| > 0
    ensures k < |ts|
    ensures forall j :: 0 <= j < |ts| ==> Distance(ts[k], t0) <= Distance(ts[j], t0)
    ensures forall j :: 0 <= j < k ==> Distance(ts[j], t0) > Distance(ts[k], t0)
  {
    if |ts| == 1 then 0
    else
      var k := NearestIndex(ts[..|ts| - 1], t0);
      if Distance(ts[|ts| - 1], t0) < Distance(ts[k], t0) then |ts| - 1 else k
  }

  /** `iloc[:-n]` with `n = len % 6`: Python reads `-0` as `0`, so a log whose
      length is already a multiple of six comes out empty. */
  function CutToMultipleOfSix(log: seq<StateSample>): (cut: seq<StateSample>)
    ensures cut <= log && |cut| % 6 == 0
    ensures |log| % 6 != 0 ==> |log| - |cut| == |log| % 6
    ensures |log| % 6 == 0 ==> cut == []
  {
    SliceUpTo(log, -(|log| % 6))
  }

  /** `s[start::6]`: every sixth element from position `start`. */
  function EverySixth(s: seq<real>, start: nat): (r: seq<real>)
    ensures |r| == if start >= |s| then 0 else (|s| - start + 5) / 6
    ensures forall k :: 0 <= k < |r| ==> 6 * k + start < |s| && r[k] == s[6 * k + start]
    decreases |s| - start
  {
    if start >= |s| then []
    else [s[start]] + EverySixth(s, start + 6)
  }

  /** The columns `DotOnsetTime_harp_ttl` and `DotOffsetTime_harp_ttl`. */
  datatype DotTimes = DotTimes(onsets: seq<real>, offsets: seq<real>)

  /** What get_dot_times_from_ttl returns: the dot times, and the state of the
      first row of the merged log when `return_TTL_state_at_startup` is set. */
  datatype DotTimesReport = DotTimesReport(dotTimes: DotTimes, startupState: Option<int>)

  /** The merged log was empty, so `iloc[0]` raises. */
  datatype TtlError = EmptyTtlLog

  /** The rows from the first one nearest `t0` on (`iloc[idx:]`). */
  function TrimToNearest(log: seq<StateSample>, t0: real): (trimmed: seq<StateSample>)
    requires |log| > 0
    ensures 0 < |trimmed| <= |log| && trimmed == log[|log| - |trimmed|..]
    ensures forall j :: 0 <= j < |log| ==> Distance(trimmed[0].timestamp, t0) <= Distance(log[j].timestamp, t0)
    ensures forall j :: 0 <= j < |log| - |trimmed| ==> Distance(log[j].timestamp, t0) > Distance(trimmed[0].timestamp, t0)
  {
    var k := NearestIndex(Timestamps(log), t0);
    assert forall j :: 0 <= j < |log| ==> Timestamps(log)[j] == log[j].timestamp;
    SliceFrom(log, k)
  }

  /** Dot onsets at rows 0, 6, 12, ... and dot offsets at rows 2, 8, 14, ... of `cut`;
      on a whole number of six-row groups, one of each per group. */
  function DotColumns(cut: seq<StateSample>): (d: DotTimes)
    ensures forall k :: 0 <= k < |d.onsets| ==> 6 * k < |cut| && d.onsets[k] == cut[6 * k].timestamp
    ensures forall k :: 0 <= k < |d.offsets| ==> 6 * k + 2 < |cut| && d.offsets[k] == cut[6 * k + 2].timestamp
    ensures |cut| % 6 == 0 ==> |d.onsets| == |d.offsets| == |cut| / 6
  {
    var ts := Timestamps(cut);
    EverySixthOfColumn(cut, 0);
    EverySixthOfColumn(cut, 2);
    WholeGroups(|cut|);
    DotTimes(EverySixth(ts, 0), EverySixth(ts, 2))
  }

  /** Every sixth timestamp from `start` is the timestamp of row `6k + start`. */
  lemma EverySixthOfColumn(cut: seq<StateSample>, start: nat)
    ensures var r := EverySixth(Timestamps(cut), start);
            forall k :: 0 <= k < |r| ==> 6 * k + start < |cut| && r[k] == cut[6 * k + start].timestamp
  {
  }

  /** On a multiple of six, counting groups from position 0 or 2 gives `n / 6`. */
  lemma WholeGroups(n: nat)
    ensures n % 6 == 0 ==> (n + 5) / 6 == n / 6
    ensures n % 6 == 0 ==> (if 2 >= n then 0 else (n - 2 + 5) / 6) == n / 6
  {
    var g := n / 6;
    assert n == 6 * g + n % 6;
  }

  /** get_dot_times_from_ttl applied to the merged log `log`, as written. */
  function DotTimesFromLog(log: seq<StateSample>, t0: real, returnStartupState: bool): (r: Result<DotTimesReport, TtlError>)
    ensures r.Failure? <==> log == []
    ensures r.Success? ==> (r.value.startupState.Some? <==> returnStartupState)
    ensures r.Success? && returnStartupState ==> r.value.startupState.value == log[0].state
  {
    if log == [] then Failure(EmptyTtlLog)
    else
      var ttlState0 := log[0].state;
      var cut := CutToMultipleOfSix(TrimToNearest(log, t0));
      Success(DotTimesReport(DotColumns(cut), if returnStartupState then Some(ttlState0) else None))
  }

  /** get_dot_times_from_ttl on the register reads themselves. */
  function DotTimesFromTtl(setRows: seq<RegisterSample>, clearRows: seq<RegisterSample>,
                           t0: real, returnStartupState: bool): (r: Result<DotTimesReport, TtlError>)
    ensures r.Failure? <==> AssertedTimes(setRows) == [] && AssertedTimes(clearRows) == []
  {
    DotTimesFromLog(TtlStateLog(setRows, clearRows), t0, returnStartupState)
  }

  /** The dot times come from the suffix of the log that starts at its first row
      nearest `t0`, cut to a whole number of six-row groups. */
  lemma DotTimesFromLogSpec(log: seq<StateSample>, t0: real, returnStartupState: bool)
    requires log != []
    ensures var r := DotTimesFromLog(log, t0, returnStartupState);
            var trimmed := TrimToNearest(log, t0);
            var cut := CutToMultipleOfSix(trimmed);
            && r.Success?
            && |cut| % 6 == 0 && cut <= trimmed
            && r.value.dotTimes == DotColumns(cut)
            && |r.value.dotTimes.onsets| == |r.value.dotTimes.offsets| == |cut| / 6
            && (|trimmed| % 6 != 0 ==> |cut| == |trimmed| - |trimmed| % 6)
            && (|trimmed| % 6 == 0 ==> r.value.dotTimes == DotTimes([], []))
  {
  }

  // ---------------------------------------------------------------------------
  // The cut as evidently intended: keep the largest multiple of six rows.
  // ---------------------------------------------------------------------------

  /** The tail cut without the `-0` slip: drop the last `len % 6` rows, none when
      the length is already a multiple of six. */
  function CutToMultipleOfSixIntended(log: seq<StateSample>): (cut: seq<StateSample>)
    ensures cut <= log && |cut| % 6 == 0
    ensures |log| - |cut| == |log| % 6
  {
    log[..|log| - |log| % 6]
  }

  /** get_dot_times_from_ttl with the intended cut. */
  function DotTimesFromLogIntended(log: seq<StateSample>, t0: real, returnStartupState: bool): (r: Result<DotTimesReport, TtlError>)
    ensures r.Failure? <==> log == []
    ensures r.Success? ==> (r.value.startupState.Some? <==> returnStartupState)
    ensures r.Success? && returnStartupState ==> r.value.startupState.value == log[0].state
  {
    if log == [] then Failure(EmptyTtlLog)
    else
      var cut := CutToMultipleOfSixIntended(TrimToNearest(log, t0));
      Success(DotTimesReport(DotColumns(cut), if returnStartupState then Some(log[0].state) else None))
  }

  /** With the intended cut every complete six-row group after the trim yields
      one dot onset and one dot offset. */
  lemma DotTimesIntendedKeepsEveryGroup(log: seq<StateSample>, t0: real, returnStartupState: bool)
    requires log != []
    ensures var r := DotTimesFromLogIntended(log, t0, returnStartupState);
            var trimmed := TrimToNearest(log, t0);
            && r.Success?
            && |r.value.dotTimes.onsets| == |r.value.dotTimes.offsets| == |trimmed| / 6
            && forall k :: 0 <= k < |trimmed| / 6 ==>
                 r.value.dotTimes.onsets[k] == trimmed[6 * k].timestamp
                 && r.value.dotTimes.offsets[k] == trimmed[6 * k + 2].timestamp
  {
    var trimmed := TrimToNearest(log, t0);
    var cut := CutToMultipleOfSixIntended(trimmed);
    assert |cut| / 6 == |trimmed| / 6;
    forall k | 0 <= k < |trimmed| / 6
      ensures cut[6 * k] == trimmed[6 * k] && cut[6 * k + 2] == trimmed[6 * k + 2]
    {
    }
  }

  /** The slip as written: six rows starting at `t0` (one complete pulse group)
      give no dot time at all, where the intended cut gives one onset and one offset. */
  lemma SixRowLogLosesItsDot()
    ensures var log := [StateSample(0.0, 1), StateSample(1.0, 0), StateSample(2.0, 1),
                        StateSample(3.0, 0), StateSample(4.0, 1), StateSample(5.0, 0)];
            && DotTimesFromLog(log, 0.0, false) == Success(DotTimesReport(DotTimes([], []), None))
            && DotTimesFromLogIntended(log, 0.0, false) == Success(DotTimesReport(DotTimes([0.0], [2.0]), None))
  {
    var log := [StateSample(0.0, 1), StateSample(1.0, 0), StateSample(2.0, 1),
                StateSample(3.0, 0), StateSample(4.0, 1), StateSample(5.0, 0)];
    var trimmed := TrimToNearest(log, 0.0);
    assert Distance(log[0].timestamp, 0.0) == 0.0;
    assert trimmed == log;
    DotTimesIntendedKeepsEveryGroup(log, 0.0, false);
    DotTimesFromLogSpec(log, 0.0, false);
    var r := DotTimesFromLogIntended(log, 0.0, false);
    assert r.value.dotTimes.onsets == [0.0];
    assert r.value.dotTimes.offsets == [2.0];
  }
}
