/** Nose-poke events split per trial: parse_trial_pokes in timestamps/harp/utils.py. */
module TrialPokes {
  import opened Windows

  /** The `DIPort0` and `DIPort1` columns of a digital-input row: true while
      the animal's nose is in that port. */
  datatype PortFlags = PortFlags(port0: bool, port1: bool)

  /** One row of the digital-input table, indexed by its timestamp. */
  type PokeEvent = Event<PortFlags>

  /** What one row means: a poke into a port, or a poke out of the ports. */
  datatype PokeKind = PokeIn(port: int) | PokeOut

  /** Port 0 is tested first, so a row with both flags set is a poke into port 0. */
  function Classify(e: PokeEvent): (k: PokeKind)
    ensures k == PokeIn(0) <==> e.payload.port0
    ensures k == PokeIn(1) <==> !e.payload.port0 && e.payload.port1
    ensures k == PokeOut <==> !e.payload.port0 && !e.payload.port1
  {
    if e.payload.port0 then PokeIn(0)
    else if e.payload.port1 then PokeIn(1)
    else PokeOut
  }

  /** Times of the poke-ins among `evs`, in order (a trial's `NosePokeIn` list). */
  function PokeInTimes(evs: seq<PokeEvent>): seq<real>
  {
    if evs == [] then []
    else
      var last := evs[|evs| - 1];
      PokeInTimes(evs[..|evs| - 1]) + (if Classify(last).PokeIn? then [last.time] else [])
  }

  /** Ports of the poke-ins among `evs`, in order (a trial's `PortID` list). */
  function PortIds(evs: seq<PokeEvent>): seq<int>
  {
    if evs == [] then []
    else
      var last := evs[|evs| - 1];
      PortIds(evs[..|evs| - 1]) + (if Classify(last).PokeIn? then [Classify(last).port] else [])
  }

  /** Times of the poke-outs among `evs`, in order (a trial's `NosePokeOut` list). */
  function PokeOutTimes(evs: seq<PokeEvent>): seq<real>
  {
    if evs == [] then []
    else
      var last := evs[|evs| - 1];
      PokeOutTimes(evs[..|evs| - 1]) + (if Classify(last).PokeOut? then [last.time] else [])
  }

  /** `NosePokeIn[i]` and `PortID[i]` have one entry per poke-in, so they line up. */
  lemma {:induction false} PokeColumnsAligned(evs: seq<PokeEvent>)
    ensures |PokeInTimes(evs)| == |PortIds(evs)|
  {
    if evs != [] {
      PokeColumnsAligned(evs[..|evs| - 1]);
    }
  }

  /** Every event is either a poke-in or a poke-out, never both nor neither. */
  lemma {:induction false} PokesPartitionEvents(evs: seq<PokeEvent>)
    ensures |PokeInTimes(evs)| + |PokeOutTimes(evs)| == |evs|
  {
    if evs != [] {
      PokesPartitionEvents(evs[..|evs| - 1]);
    }
  }

  /** Entry `k` of a trial's poke-in columns comes from one event of that trial:
      its time is the event's time and its port is the event's classification. */
  lemma {:induction false} PokeInEntryFromEvent(evs: seq<PokeEvent>, k: nat)
    requires k < |PokeInTimes(evs)|
    ensures k < |PortIds(evs)|
    ensures exists j :: 0 <= j < |evs| && Classify(evs[j]) == PokeIn(PortIds(evs)[k])
              && evs[j].time == PokeInTimes(evs)[k]
  {
    PokeColumnsAligned(evs);
    var init := evs[..|evs| - 1];
    PokeColumnsAligned(init);
    if k < |PokeInTimes(init)| {
      PokeInEntryFromEvent(init, k);
      var j :| 0 <= j < |init| && Classify(init[j]) == PokeIn(PortIds(init)[k])
                && init[j].time == PokeInTimes(init)[k];
      assert evs[j] == init[j];
    } else {
      assert Classify(evs[|evs| - 1]) == PokeIn(PortIds(evs)[k]);
    }
  }

  /** Every port id is 0 or 1. */
  lemma {:induction false} PortIdsBinary(evs: seq<PokeEvent>)
    ensures forall k :: 0 <= k < |PortIds(evs)| ==> PortIds(evs)[k] == 0 || PortIds(evs)[k] == 1
  {
    if evs != [] {
      PortIdsBinary(evs[..|evs| - 1]);
    }
  }

  /** The inner loop of parse_trial_pokes over one trial's events: poke-in
      times with their ports, and poke-out times, each in stream order. */
  method SplitTrialPokes(trialEvents: seq<PokeEvent>)
    returns (inTrial: seq<real>, outTrial: seq<real>, portTrial: seq<int>)
    ensures inTrial == PokeInTimes(trialEvents)
    ensures outTrial == PokeOutTimes(trialEvents)
    ensures portTrial == PortIds(trialEvents)
  {
    inTrial, outTrial, portTrial := [], [], [];
    var j := 0;
    while j < |trialEvents|
      invariant 0 <= j <= |trialEvents|
      invariant inTrial == PokeInTimes(trialEvents[..j])
      invariant outTrial == PokeOutTimes(trialEvents[..j])
      invariant portTrial == PortIds(trialEvents[..j])
    {
      var e := trialEvents[j];
      if e.payload.port0 {
        inTrial := inTrial + [e.time];
        portTrial := portTrial + [0];
      } else if e.payload.port1 {
        inTrial := inTrial + [e.time];
        portTrial := portTrial + [1];
      } else {
        // the source's third test, neither flag set, always holds here
        outTrial := outTrial + [e.time];
      }
      assert trialEvents[..j + 1][..j] == trialEvents[..j];
      j := j + 1;
    }
    assert trialEvents[..j] == trialEvents;
  }

  /** parse_trial_pokes: one entry per trial start; entry `i` classifies, in
      stream order, the events of trial `i`'s inclusive window. */
  method ParseTrialPokes(starts: seq<real>, events: seq<PokeEvent>)
    returns (nosePokeIn: seq<seq<real>>, nosePokeOut: seq<seq<real>>,
             portId: seq<seq<int>>, numPokes: seq<nat>)
    ensures |nosePokeIn| == |nosePokeOut| == |portId| == |numPokes| == |starts|
    ensures forall i :: 0 <= i < |starts| ==>
              nosePokeIn[i] == PokeInTimes(TrialEvents(events, starts, i))
              && nosePokeOut[i] == PokeOutTimes(TrialEvents(events, starts, i))
              && portId[i] == PortIds(TrialEvents(events, starts, i))
              && numPokes[i] == |nosePokeIn[i]| == |portId[i]|
  {
    var numTrials := |starts|;
    nosePokeIn := seq(numTrials, _ => []);
    nosePokeOut := seq(numTrials, _ => []);
    portId := seq(numTrials, _ => []);
    numPokes := seq(numTrials, _ => 0);
    var i := 0;
    while i < numTrials
      invariant 0 <= i <= numTrials
      invariant |nosePokeIn| == |nosePokeOut| == |portId| == |numPokes| == numTrials
      invariant forall k :: 0 <= k < i ==>
                  nosePokeIn[k] == PokeInTimes(TrialEvents(events, starts, k))
                  && nosePokeOut[k] == PokeOutTimes(TrialEvents(events, starts, k))
                  && portId[k] == PortIds(TrialEvents(events, starts, k))
                  && numPokes[k] == |nosePokeIn[k]| == |portId[k]|
    {
      var startTime := starts[i];
      var endTime := if i < numTrials - 1 then starts[i + 1] else startTime + LastTrialSpan;
      var trialEvents := Between(events, startTime, endTime);
      var inTrial, outTrial, portTrial := SplitTrialPokes(trialEvents);
      PokeColumnsAligned(trialEvents);
      assert trialEvents == TrialEvents(events, starts, i);
      nosePokeIn := nosePokeIn[i := inTrial];
      nosePokeOut := nosePokeOut[i := outTrial];
      portId := portId[i := portTrial];
      numPokes := numPokes[i := |inTrial|];
      i := i + 1;
    }
  }
}
