/** The square-wave view of a state log used to plot the TTL trace:
    get_square_wave in utils/plot_utils.py. */
module SquareWave {
  import opened StateLogs

  /** pandas' `.repeat(2)`: every element twice, in place. */
  function Doubled<T>(s: seq<T>): (r: seq<T>)
    ensures |r| == 2 * |s|
    ensures forall k :: 0 <= k < |s| ==> r[2 * k] == s[k] && r[2 * k + 1] == s[k]
  {
    if s == [] then []
    else
      var rest := Doubled(s[1..]);
      assert forall k :: 1 <= k < |s| ==> rest[2 * (k - 1)] == s[1..][k - 1] == s[k];
      [s[0], s[0]] + rest
  }

  /** Position `j` of the doubled sequence holds element `j / 2`. */
  lemma DoubledAt<T>(s: seq<T>, j: nat)
    requires j < 2 * |s|
    ensures Doubled(s)[j] == s[j / 2]
  {
    var k := j / 2;
    assert j == 2 * k || j == 2 * k + 1;
  }

  /** The two columns of the wave. */
  datatype Wave = Wave(timestamps: seq<real>, states: seq<int>)

  /** get_square_wave: the doubled timestamps without their first entry beside
      the doubled states without their last (`[1:]` and `[:-1]`, both empty on
      an empty list), so that each change of level becomes a vertical step
      drawn at one time. */
  function SquareWaveOf(log: seq<StateSample>): (w: Wave)
    ensures |log| == 0 ==> w.timestamps == [] && w.states == []
    ensures |log| >= 1 ==> |w.timestamps| == |w.states| == 2 * |log| - 1
    ensures |log| >= 1 ==> w.timestamps[0] == log[0].timestamp
    ensures forall k :: 1 <= k < |log| ==>
              w.timestamps[2 * k - 1] == w.timestamps[2 * k] == log[k].timestamp
    ensures forall k :: 0 <= k < |log| - 1 ==>
              w.states[2 * k] == w.states[2 * k + 1] == log[k].state
    ensures |log| >= 1 ==> w.states[2 * |log| - 2] == log[|log| - 1].state
  {
    if log == [] then Wave([], [])
    else
      var times, levels := Doubled(Timestamps(log)), Doubled(States(log));
      DoubledTimes(log);
      DoubledLevels(log);
      Wave(times[1..], levels[..|levels| - 1])
  }

  /** The doubled timestamp column, read from position 1. */
  lemma DoubledTimes(log: seq<StateSample>)
    requires |log| >= 1
    ensures var t := Doubled(Timestamps(log))[1..];
            && t[0] == log[0].timestamp
            && forall k :: 1 <= k < |log| ==> t[2 * k - 1] == log[k].timestamp && t[2 * k] == log[k].timestamp
  {
    var ts := Timestamps(log);
    var d := Doubled(ts);
    assert d[1] == ts[0];
    forall k | 1 <= k < |log| ensures d[1..][2 * k - 1] == log[k].timestamp && d[1..][2 * k] == log[k].timestamp {
      assert d[2 * k] == ts[k] && d[2 * k + 1] == ts[k];
    }
  }

  /** The doubled state column, without its last entry. */
  lemma DoubledLevels(log: seq<StateSample>)
    requires |log| >= 1
    ensures var d := Doubled(States(log));
            var s := d[..|d| - 1];
            && s[2 * |log| - 2] == log[|log| - 1].state
            && forall k :: 0 <= k < |log| - 1 ==> s[2 * k] == log[k].state && s[2 * k + 1] == log[k].state
  {
    var ss := States(log);
    var d := Doubled(ss);
    assert d[2 * (|log| - 1)] == ss[|log| - 1];
    forall k | 0 <= k < |log| - 1 ensures d[2 * k] == log[k].state && d[2 * k + 1] == log[k].state {
      assert d[2 * k] == ss[k] && d[2 * k + 1] == ss[k];
    }
  }

  /** Each change time `log[k].timestamp` is drawn twice: first at the old level
      `log[k - 1].state`, then at the new level `log[k].state`. */
  lemma StepAtEachChange(log: seq<StateSample>, k: nat)
    requires 1 <= k < |log|
    ensures var w := SquareWaveOf(log);
            && w.timestamps[2 * k - 1] == log[k].timestamp && w.states[2 * k - 1] == log[k - 1].state
            && w.timestamps[2 * k] == log[k].timestamp && w.states[2 * k] == log[k].state
  {
    var w := SquareWaveOf(log);
    assert w.states[2 * (k - 1) + 1] == log[k - 1].state;
    if k < |log| - 1 {
      assert w.states[2 * k] == log[k].state;
    }
  }

  /** A time-sorted log gives non-decreasing wave timestamps. */
  lemma SortedLogSortedWave(log: seq<StateSample>)
    requires SortedByTime(log)
    ensures var ts := SquareWaveOf(log).timestamps;
            forall i, j :: 0 <= i < j < |ts| ==> ts[i] <= ts[j]
  {
    var ts := SquareWaveOf(log).timestamps;
    var d := Doubled(Timestamps(log));
    if |log| > 0 {
      forall i, j | 0 <= i < j < |ts| ensures ts[i] <= ts[j] {
        DoubledAt(Timestamps(log), i + 1);
        DoubledAt(Timestamps(log), j + 1);
        assert (i + 1) / 2 <= (j + 1) / 2;
      }
    }
  }
}
