/** Rising-edge extraction on the two recordings of the TTL line and the
    count check before the clock fit: `openephys_session.sync_harp_ttls` and
    `timestamp_mapping.__init__` in timestamps/OpenEphys/open_ephys_utils.py. */
module OpenEphysSync {
  import opened Wrappers
  import opened StateLogs

  /** Row 0 of the PXIe `diff` column: the first event is taken as a rise. */
  const PxieFirstDiff: int := 1

  /** Row 0 of the harp `diff` column: the first event is never a rise. */
  const HarpFirstDiff: int := 0

  /** The `diff` column: `first` at row 0, `states[i] - states[i - 1]` after it. */
  function DiffColumn(states: seq<int>, first: int): seq<int>
    requires |states| > 0
  {
    seq(|states|, i requires 0 <= i < |states| => if i == 0 then first else states[i] - states[i - 1])
  }

  /** Fills a zeroed array the length of `states` (`np.zeros_like`), writes
      `first` at 0, then the first differences into positions 1 on (`[1:] = np.diff`). */
  method FirstDifference(states: seq<int>, first: int) returns (diff: array<int>)
    requires |states| > 0
    ensures fresh(diff)
    ensures diff[..] == DiffColumn(states, first)
  {
    diff := new int[|states|](_ => 0);
    diff[0] := first;
    forall i | 1 <= i < |states| {
      diff[i] := states[i] - states[i - 1];
    }
  }

  /** The positions from `from` on where `diff` is 1, in increasing order. */
  function OnsetIndicesFrom(diff: seq<int>, from: nat): (idx: seq<nat>)
    requires from <= |diff|
    ensures forall k :: 0 <= k < |idx| ==> from <= idx[k] < |diff| && diff[idx[k]] == 1
    ensures forall k, m :: 0 <= k < m < |idx| ==> idx[k] < idx[m]
    ensures forall i :: from <= i < |diff| && diff[i] == 1 ==> i in idx
    decreases |diff| - from
  {
    if from == |diff| then []
    else if diff[from] == 1 then [from] + OnsetIndicesFrom(diff, from + 1)
    else OnsetIndicesFrom(diff, from + 1)
  }

  /** The rows where the `diff` column is 1. */
  function OnsetIndices(diff: seq<int>): seq<nat>
  {
    OnsetIndicesFrom(diff, 0)
  }

  /** `df[df['diff'] == 1]`: the selected rows, in their original order. */
  function Onsets(rows: seq<StateSample>, diff: seq<int>): seq<StateSample>
    requires |diff| == |rows|
  {
    var idx := OnsetIndices(diff);
    seq(|idx|, k requires 0 <= k < |idx| => rows[idx[k]])
  }

  /** Row `i` is selected exactly when its `diff` entry is 1. */
  lemma OnsetIndicesExact(diff: seq<int>, i: int)
    ensures i in OnsetIndices(diff) <==> 0 <= i < |diff| && diff[i] == 1
  {
  }

  /** On the PXIe side row 0 is always the first onset, whatever its state. */
  lemma PxieRowZeroIsOnset(rows: seq<StateSample>)
    requires |rows| > 0
    ensures var onsets := Onsets(rows, DiffColumn(States(rows), PxieFirstDiff));
            |onsets| > 0 && onsets[0] == rows[0]
  {
    var idx := OnsetIndices(DiffColumn(States(rows), PxieFirstDiff));
    assert 0 in idx;
    var k :| 0 <= k < |idx| && idx[k] == 0;
    assert k == 0;
  }

  /** On the harp side row 0 is never an onset, whatever its state. */
  lemma HarpRowZeroNeverOnset(rows: seq<StateSample>)
    requires |rows| > 0
    ensures 0 !in OnsetIndices(DiffColumn(States(rows), HarpFirstDiff))
  {
  }

  /** After row 0, on 0/1 states, a row is an onset exactly when it rises from 0 to 1. */
  lemma OnsetIsRisingEdge(rows: seq<StateSample>, first: int, i: int)
    requires |rows| > 0 && IsBinary(rows) && 0 < i < |rows|
    ensures i in OnsetIndices(DiffColumn(States(rows), first)) <==> rows[i].state == 1 && rows[i - 1].state == 0
  {
    OnsetIndicesExact(DiffColumn(States(rows), first), i);
  }

  /** Onset `k` is row `OnsetIndices(diff)[k]`, and the onsets keep the rows' order. */
  lemma OnsetsAreOrderedRows(rows: seq<StateSample>, diff: seq<int>)
    requires |diff| == |rows|
    ensures var onsets := Onsets(rows, diff);
            var idx := OnsetIndices(diff);
            && |onsets| == |idx| <= |rows|
            && forall k :: 0 <= k < |onsets| ==> onsets[k] == rows[idx[k]] && diff[idx[k]] == 1
    ensures SortedByTime(rows) ==> SortedByTime(Onsets(rows, diff))
  {
    var idx := OnsetIndices(diff);
    IndicesBounded(idx, |rows|);
  }

  /** A strictly increasing run of positions below `n` has at most `n` entries. */
  lemma {:induction false} IndicesBounded(idx: seq<nat>, n: nat)
    requires forall k :: 0 <= k < |idx| ==> idx[k] < n
    requires forall k, m :: 0 <= k < m < |idx| ==> idx[k] < idx[m]
    ensures |idx| <= n
  {
    if idx != [] {
      var last := idx[|idx| - 1];
      IndicesBounded(idx[..|idx| - 1], last);
    }
  }

  /** The onset tables a `timestamp_mapping` fits, one harp onset beside each
      PXIe onset (the fit itself is not part of this model). */
  datatype TimestampMapping = TimestampMapping(harpOnset: seq<StateSample>, pxieOnset: seq<StateSample>)

  /** Why sync_harp_ttls stopped: writing row 0 of the `diff` column of an
      empty table raises, and the fit raises on onset tables of unequal length
      (after the count check has printed both rise counts and its warning). */
  datatype SyncError = EmptyPxieLog | EmptyHarpLog | OnsetCountMismatch(harpRises: nat, pxieRises: nat)

  /** `timestamp_mapping.__init__` up to the fit: the onset tables are paired
      row by row when their counts agree; unequal counts are reported and fail. */
  function NewTimestampMapping(harpOnset: seq<StateSample>, pxieOnset: seq<StateSample>): (r: Result<TimestampMapping, SyncError>)
    ensures r.Success? <==> |harpOnset| == |pxieOnset|
    ensures r.Failure? ==> r.error == OnsetCountMismatch(|harpOnset|, |pxieOnset|)
    ensures r.Success? ==> r.value.harpOnset == harpOnset && r.value.pxieOnset == pxieOnset
  {
    if |harpOnset| != |pxieOnset| then Failure(OnsetCountMismatch(|harpOnset|, |pxieOnset|))
    else Success(TimestampMapping(harpOnset, pxieOnset))
  }

  /** Two `diff` columns that agree from `from` on select the same positions there. */
  lemma {:induction false} OnsetIndicesAgree(d1: seq<int>, d2: seq<int>, from: nat)
    requires |d1| == |d2| && from <= |d1|
    requires forall i :: from <= i < |d1| ==> d1[i] == d2[i]
    ensures OnsetIndicesFrom(d1, from) == OnsetIndicesFrom(d2, from)
    decreases |d1| - from
  {
    if from < |d1| {
      OnsetIndicesAgree(d1, d2, from + 1);
    }
  }

  /** On the same sequence of states the PXIe convention finds exactly one
      onset more than the harp convention: the forced rise at row 0. */
  lemma PxieCountsOneMoreOnset(states: seq<int>)
    requires |states| > 0
    ensures |OnsetIndices(DiffColumn(states, PxieFirstDiff))| == |OnsetIndices(DiffColumn(states, HarpFirstDiff))| + 1
  {
    var pxie, harp := DiffColumn(states, PxieFirstDiff), DiffColumn(states, HarpFirstDiff);
    OnsetIndicesAgree(pxie, harp, 1);
    assert OnsetIndicesFrom(pxie, 0) == [0] + OnsetIndicesFrom(pxie, 1);
    assert OnsetIndicesFrom(harp, 0) == OnsetIndicesFrom(harp, 1);
  }

  /** A harp table and a PXIe table that carry the same sequence of states never
      pass the count check: the mapping fails with one PXIe rise more. */
  lemma SameStatesFailCountCheck(harpRows: seq<StateSample>, pxieRows: seq<StateSample>)
    requires |harpRows| > 0 && States(harpRows) == States(pxieRows)
    ensures var harpOnset := Onsets(harpRows, DiffColumn(States(harpRows), HarpFirstDiff));
            var pxieOnset := Onsets(pxieRows, DiffColumn(States(pxieRows), PxieFirstDiff));
            NewTimestampMapping(harpOnset, pxieOnset) == Failure(OnsetCountMismatch(|harpOnset|, |harpOnset| + 1))
  {
    PxieCountsOneMoreOnset(States(harpRows));
  }

  /** The parts of an `openephys_session` that sync_harp_ttls reads and writes.
      `pxieDiff` and `harpDiff` are the `diff` columns it adds to `TTL_pulses`
      and `harp_ttl` (empty before it runs); `tm` is `self.tm`. */
  class OpenEphysSession {
    var ttlPulses: seq<StateSample>
    var pxieDiff: seq<int>
    var harpTtl: seq<StateSample>
    var harpDiff: seq<int>
    var tm: Option<TimestampMapping>

    /** A session whose PXIe TTL table (`TTL_pulses`, with `global_timestamp`
        as the timestamp) has been read. */
    constructor (ttlPulses: seq<StateSample>)
      ensures this.ttlPulses == ttlPulses
      ensures pxieDiff == [] && harpTtl == [] && harpDiff == [] && tm == None
    {
      this.ttlPulses := ttlPulses;
      pxieDiff, harpTtl, harpDiff, tm := [], [], [], None;
    }

    /** sync_harp_ttls with the rows of `TTLs_harp.csv` as `harpCsv`: the PXIe
        `diff` column starts with a rise, the harp one without; the onsets of
        both go to a new mapping. An empty PXIe table fails before anything is
        written; an empty harp table fails after the PXIe column and the harp
        table were stored; unequal onset counts fail after both columns were
        written, leaving `tm` as it was. */
    method SyncHarpTtls(harpCsv: seq<StateSample>) returns (outcome: Outcome<SyncError>)
      modifies this
      ensures ttlPulses == old(ttlPulses)
      ensures old(ttlPulses) == [] ==>
                outcome == Fail(EmptyPxieLog) && pxieDiff == old(pxieDiff)
                && harpTtl == old(harpTtl) && harpDiff == old(harpDiff) && tm == old(tm)
      ensures old(ttlPulses) != [] ==>
                pxieDiff == DiffColumn(States(ttlPulses), PxieFirstDiff) && harpTtl == harpCsv
      ensures old(ttlPulses) != [] && harpCsv == [] ==>
                outcome == Fail(EmptyHarpLog) && harpDiff == old(harpDiff) && tm == old(tm)
      ensures old(ttlPulses) != [] && harpCsv != [] ==>
                harpDiff == DiffColumn(States(harpCsv), HarpFirstDiff)
      ensures old(ttlPulses) != [] && harpCsv != [] ==>
                var mapping := NewTimestampMapping(Onsets(harpCsv, harpDiff), Onsets(ttlPulses, pxieDiff));
                && (mapping.Success? ==> outcome == Pass && tm == Some(mapping.value))
                && (mapping.Failure? ==> outcome == Fail(mapping.error) && tm == old(tm))
    {
      if ttlPulses == [] {
        return Fail(EmptyPxieLog);
      }
      var ttlDiff := FirstDifference(States(ttlPulses), PxieFirstDiff);
      pxieDiff := ttlDiff[..];
      harpTtl := harpCsv;
      if harpTtl == [] {
        return Fail(EmptyHarpLog);
      }
      var harpColumn := FirstDifference(States(harpTtl), HarpFirstDiff);
      harpDiff := harpColumn[..];
      var harpOnset := Onsets(harpTtl, harpDiff);
      var pxieOnset := Onsets(ttlPulses, pxieDiff);
      var mapping := NewTimestampMapping(harpOnset, pxieOnset);
      if mapping.Failure? {
        return Fail(mapping.error);
      }
      tm := Some(mapping.value);
      outcome := Pass;
    }
  }
}
