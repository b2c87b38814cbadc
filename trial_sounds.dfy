/** Sound-card events split per trial: parse_trial_sounds in timestamps/harp/utils.py. */
module TrialSounds {
  import opened Windows

  /** One sound-card event: its `Time` and its `PlaySoundOrFrequency` value. */
  type SoundEvent = Event<int>

  /** The value the sound card reports when a sound stops, unless the caller
      passes another. */
  const DefaultOffIndex: int := 18

  /** Any value other than `offIndex` starts a sound; `offIndex` ends one. */
  predicate IsSoundOn(e: SoundEvent, offIndex: int)
  {
    e.payload != offIndex
  }

  /** Times of the sound onsets among `evs` (a trial's `AudioCueStartTimes`). */
  function OnTimes(evs: seq<SoundEvent>, offIndex: int): seq<real>
  {
    if evs == [] then []
    else
      var last := evs[|evs| - 1];
      OnTimes(evs[..|evs| - 1], offIndex) + (if IsSoundOn(last, offIndex) then [last.time] else [])
  }

  /** Values of the sound onsets among `evs` (a trial's `AudioCueIdentities`). */
  function SoundIds(evs: seq<SoundEvent>, offIndex: int): seq<int>
  {
    if evs == [] then []
    else
      var last := evs[|evs| - 1];
      SoundIds(evs[..|evs| - 1], offIndex) + (if IsSoundOn(last, offIndex) then [last.payload] else [])
  }

  /** Times of the sound offsets among `evs` (a trial's `AudioCueEndTimes`). */
  function OffTimes(evs: seq<SoundEvent>, offIndex: int): seq<real>
  {
    if evs == [] then []
    else
      var last := evs[|evs| - 1];
      OffTimes(evs[..|evs| - 1], offIndex) + (if IsSoundOn(last, offIndex) then [] else [last.time])
  }

  /** Each onset time has its identity beside it, and no identity is the off value. */
  lemma {:induction false} SoundColumnsAligned(evs: seq<SoundEvent>, offIndex: int)
    ensures |OnTimes(evs, offIndex)| == |SoundIds(evs, offIndex)|
    ensures forall k :: 0 <= k < |SoundIds(evs, offIndex)| ==> SoundIds(evs, offIndex)[k] != offIndex
  {
    if evs != [] {
      SoundColumnsAligned(evs[..|evs| - 1], offIndex);
    }
  }

  /** Every sound event is an onset or an offset. */
  lemma {:induction false} SoundsPartitionEvents(evs: seq<SoundEvent>, offIndex: int)
    ensures |OnTimes(evs, offIndex)| + |OffTimes(evs, offIndex)| == |evs|
  {
    if evs != [] {
      SoundsPartitionEvents(evs[..|evs| - 1], offIndex);
    }
  }

  /** A trial in which no event carries the off value has no offsets, and all
      its events are onsets. */
  lemma {:induction false} NoOffValueNoOffsets(evs: seq<SoundEvent>, offIndex: int)
    requires forall k :: 0 <= k < |evs| ==> evs[k].payload != offIndex
    ensures OffTimes(evs, offIndex) == []
    ensures OnTimes(evs, offIndex) == seq(|evs|, k requires 0 <= k < |evs| => evs[k].time)
  {
    if evs != [] {
      NoOffValueNoOffsets(evs[..|evs| - 1], offIndex);
    }
  }

  /** The inner loop of parse_trial_sounds over one trial's events: onset
      times and values, and offset times, each in stream order. */
  method SplitTrialSounds(trialEvents: seq<SoundEvent>, offIndex: int)
    returns (on: seq<real>, off: seq<real>, id: seq<int>)
    ensures on == OnTimes(trialEvents, offIndex)
    ensures off == OffTimes(trialEvents, offIndex)
    ensures id == SoundIds(trialEvents, offIndex)
  {
    on, off, id := [], [], [];
    var j := 0;
    while j < |trialEvents|
      invariant 0 <= j <= |trialEvents|
      invariant on == OnTimes(trialEvents[..j], offIndex)
      invariant off == OffTimes(trialEvents[..j], offIndex)
      invariant id == SoundIds(trialEvents[..j], offIndex)
    {
      var eventTime := trialEvents[j].time;
      var sound := trialEvents[j].payload;
      if sound != offIndex {
        on := on + [eventTime];
        id := id + [sound];
      } else {
        off := off + [eventTime];
      }
      assert trialEvents[..j + 1][..j] == trialEvents[..j];
      j := j + 1;
    }
    assert trialEvents[..j] == trialEvents;
  }

  /** Trial `i`'s entries of the three columns are those of its window's events. */
  predicate TrialSoundsRow(on: seq<real>, off: seq<real>, id: seq<int>,
                           events: seq<SoundEvent>, starts: seq<real>, i: nat, offIndex: int)
    requires i < |starts|
  {
    var evs := TrialEvents(events, starts, i);
    on == OnTimes(evs, offIndex) && off == OffTimes(evs, offIndex) && id == SoundIds(evs, offIndex)
  }

  /** parse_trial_sounds: one entry per trial start; entry `i` splits the events
      of trial `i`'s inclusive window into onsets (with their values) and offsets. */
  method ParseTrialSounds(starts: seq<real>, events: seq<SoundEvent>, offIndex: int)
    returns (onS: seq<seq<real>>, offS: seq<seq<real>>, idS: seq<seq<int>>)
    ensures |onS| == |offS| == |idS| == |starts|
    ensures forall i :: 0 <= i < |starts| ==>
              onS[i] == OnTimes(TrialEvents(events, starts, i), offIndex)
              && offS[i] == OffTimes(TrialEvents(events, starts, i), offIndex)
              && idS[i] == SoundIds(TrialEvents(events, starts, i), offIndex)
              && |onS[i]| == |idS[i]|
  {
    onS, offS, idS := [], [], [];
    var i := 0;
    while i < |starts|
      invariant 0 <= i <= |starts|
      invariant |onS| == |offS| == |idS| == i
      invariant forall k :: 0 <= k < i ==> TrialSoundsRow(onS[k], offS[k], idS[k], events, starts, k, offIndex)
      invariant forall k :: 0 <= k < i ==> |onS[k]| == |idS[k]|
    {
      var startTime := starts[i];
      var endTime := if i < |starts| - 1 then starts[i + 1] else startTime + LastTrialSpan;
      var trialEvents := Between(events, startTime, endTime);
      var on, off, id := SplitTrialSounds(trialEvents, offIndex);
      SoundColumnsAligned(trialEvents, offIndex);
      assert TrialSoundsRow(on, off, id, events, starts, i, offIndex);
      onS := onS + [on];
      offS := offS + [off];
      idS := idS + [id];
      i := i + 1;
    }
  }

  /** parse_trial_sounds called without `OFF_index`: value 18 ends a sound. */
  method ParseTrialSoundsDefault(starts: seq<real>, events: seq<SoundEvent>)
    returns (onS: seq<seq<real>>, offS: seq<seq<real>>, idS: seq<seq<int>>)
    ensures |onS| == |offS| == |idS| == |starts|
    ensures forall i :: 0 <= i < |starts| ==>
              TrialSoundsRow(onS[i], offS[i], idS[i], events, starts, i, DefaultOffIndex)
              && forall k :: 0 <= k < |idS[i]| ==> idS[i][k] != 18
  {
    onS, offS, idS := ParseTrialSounds(starts, events, DefaultOffIndex);
    forall i | 0 <= i < |starts|
      ensures forall k :: 0 <= k < |idS[i]| ==> idS[i][k] != 18
    {
      SoundColumnsAligned(TrialEvents(events, starts, i), DefaultOffIndex);
    }
  }
}
