/** The port chosen in each trial: get_port_choice in timestamps/harp/utils.py. */
module PortChoice {
  import opened Wrappers
  import opened Windows
  import opened TrialPokes

  /** The columns of a trials table row that get_port_choice reads. A dot time
      is `None` where the table holds NaN (a trial with no TTL dot time). */
  datatype TrialRow = TrialRow(completionCode: string, dotOnset: Option<real>, dotOffset: Option<real>)

  /** One row of the result: `ChoicePort` and `ChoiceTimestamp` (`None` for NaN). */
  datatype Choice = Choice(port: int, timestamp: Option<real>)

  /** The preset row: no port chosen, no timestamp. */
  const NoChoice: Choice := Choice(-1, None)

  /** The seconds after the last trial's dot onset that close its response window. */
  const LastResponseSpan: real := 100.0

  /** `p` occurs in `s` starting at position `k`. */
  predicate OccursAt(s: string, p: string, k: int)
  {
    0 <= k && k + |p| <= |s| && s[k..k + |p|] == p
  }

  /** `str.contains(p)` for a pattern without regular-expression operators. */
  function Contains(s: string, p: string): (b: bool)
    ensures b <==> exists k :: OccursAt(s, p, k)
    decreases |s|
  {
    if |s| < |p| then false
    else if s[..|p|] == p then
      assert OccursAt(s, p, 0);
      true
    else
      var b := Contains(s[1..], p);
      assert forall k :: OccursAt(s[1..], p, k) <==> OccursAt(s, p, k + 1);
      assert !OccursAt(s, p, 0);
      assert forall k :: OccursAt(s, p, k) ==> k == 0 || OccursAt(s[1..], p, k - 1);
      b
  }

  /** `TrialCompletionCode.str.contains('Aborted|DotTimeLimitReached')`. */
  predicate IsAborted(code: string)
  {
    Contains(code, "Aborted") || Contains(code, "DotTimeLimitReached")
  }

  /** Trial `i`'s response window: from its dot offset to the next trial's dot
      onset, or to `LastResponseSpan` after its own dot onset for the last trial.
      `None` when a bound is NaN: then no poke compares inside it. */
  function ResponseWindow(trials: seq<TrialRow>, i: nat): (w: Option<(real, real)>)
    requires i < |trials|
    ensures w.Some? <==> trials[i].dotOffset.Some?
                         && (if i == |trials| - 1 then trials[i].dotOnset.Some? else trials[i + 1].dotOnset.Some?)
    ensures w.Some? ==> w.value.0 == trials[i].dotOffset.value
    ensures w.Some? && i == |trials| - 1 ==> w.value.1 == trials[i].dotOnset.value + LastResponseSpan
    ensures w.Some? && i < |trials| - 1 ==> w.value.1 == trials[i + 1].dotOnset.value
  {
    var endTime := if i == |trials| - 1 then
                     (if trials[i].dotOnset.Some? then Some(trials[i].dotOnset.value + LastResponseSpan) else None)
                   else trials[i + 1].dotOnset;
    if trials[i].dotOffset.Some? && endTime.Some? then Some((trials[i].dotOffset.value, endTime.value))
    else None
  }

  /** The events of the digital-input table inside trial `i`'s response window. */
  function WindowPokes(trials: seq<TrialRow>, pokes: seq<PokeEvent>, i: nat): seq<PokeEvent>
    requires i < |trials|
  {
    match ResponseWindow(trials, i)
    case None => []
    case Some((lo, hi)) => Between(pokes, lo, hi)
  }

  /** Row `i` of get_port_choice: preset for an aborted trial and for a window
      without events; otherwise port 0 if the first event in the window has
      `DIPort0` set, else port 1, at that event's time. */
  function ChoiceFor(trials: seq<TrialRow>, pokes: seq<PokeEvent>, i: nat): (c: Choice)
    requires i < |trials|
    ensures IsAborted(trials[i].completionCode) ==> c == NoChoice
    ensures ResponseWindow(trials, i).None? ==> c == NoChoice
    ensures c == NoChoice || (c.port in {0, 1} && c.timestamp.Some?)
    ensures !IsAborted(trials[i].completionCode) && ResponseWindow(trials, i).Some? ==>
              (c == NoChoice <==>
                 forall k :: 0 <= k < |pokes| ==>
                   !(ResponseWindow(trials, i).value.0 <= pokes[k].time <= ResponseWindow(trials, i).value.1))
  {
    if IsAborted(trials[i].completionCode) then NoChoice
    else
      var trialPokes := WindowPokes(trials, pokes, i);
      if trialPokes == [] then NoChoice
      else
        var firstPoke := trialPokes[0];
        Choice(if firstPoke.payload.port0 then 0 else 1, Some(firstPoke.time))
  }

  /** get_port_choice: one row per trial, each as `ChoiceFor` describes. */
  method GetPortChoice(trials: seq<TrialRow>, pokes: seq<PokeEvent>)
    returns (choicePort: seq<int>, choiceTimestamp: seq<Option<real>>)
    ensures |choicePort| == |choiceTimestamp| == |trials|
    ensures forall i :: 0 <= i < |trials| ==>
              Choice(choicePort[i], choiceTimestamp[i]) == ChoiceFor(trials, pokes, i)
  {
    choicePort := seq(|trials|, _ => -1);
    choiceTimestamp := seq(|trials|, _ => None);
    for trial := 0 to |trials|
      invariant |choicePort| == |choiceTimestamp| == |trials|
      invariant forall i :: 0 <= i < trial ==>
                  Choice(choicePort[i], choiceTimestamp[i]) == ChoiceFor(trials, pokes, i)
      invariant forall i :: trial <= i < |trials| ==> choicePort[i] == -1 && choiceTimestamp[i] == None
    {
      if !IsAborted(trials[trial].completionCode) {
        var trialPokes := WindowPokes(trials, pokes, trial);
        if trialPokes != [] {
          var firstPoke := trialPokes[0];
          choicePort := choicePort[trial := if firstPoke.payload.port0 then 0 else 1];
          choiceTimestamp := choiceTimestamp[trial := Some(firstPoke.time)];
        }
        // an empty window only builds a `Warning` object, which is never raised
      }
    }
  }

  /** A completed trial's choice is the earliest event (by position in the
      stream) inside its response window: 0 exactly when that event has
      `DIPort0` set. */
  lemma ChoiceIsFirstEventInWindow(trials: seq<TrialRow>, pokes: seq<PokeEvent>, i: nat)
    requires i < |trials| && ChoiceFor(trials, pokes, i) != NoChoice
    ensures var c := ChoiceFor(trials, pokes, i);
            var (lo, hi) := ResponseWindow(trials, i).value;
            && !IsAborted(trials[i].completionCode) && ResponseWindow(trials, i).Some?
            && exists j :: 0 <= j < |pokes| && lo <= pokes[j].time <= hi
                 && c == Choice(if pokes[j].payload.port0 then 0 else 1, Some(pokes[j].time))
                 && forall m :: 0 <= m < j ==> !(lo <= pokes[m].time <= hi)
  {
    var (lo, hi) := ResponseWindow(trials, i).value;
    BetweenFirst(pokes, lo, hi);
  }

  /** A completed trial whose window holds no event keeps the preset row. */
  lemma EmptyWindowKeepsPreset(trials: seq<TrialRow>, pokes: seq<PokeEvent>, i: nat)
    requires i < |trials| && ResponseWindow(trials, i).Some?
    requires var (lo, hi) := ResponseWindow(trials, i).value;
             forall k :: 0 <= k < |pokes| ==> !(lo <= pokes[k].time <= hi)
    ensures ChoiceFor(trials, pokes, i) == NoChoice
  {
    var (lo, hi) := ResponseWindow(trials, i).value;
    BetweenEmpty(pokes, lo, hi);
  }

  /** On a time-ordered event stream the choice timestamp is the earliest time
      of any event inside the response window. */
  lemma ChoiceIsEarliestInWindow(trials: seq<TrialRow>, pokes: seq<PokeEvent>, i: nat)
    requires i < |trials| && ChoiceFor(trials, pokes, i) != NoChoice
    requires forall a, b :: 0 <= a < b < |pokes| ==> pokes[a].time <= pokes[b].time
    ensures var (lo, hi) := ResponseWindow(trials, i).value;
            forall k :: 0 <= k < |pokes| && lo <= pokes[k].time <= hi ==>
              ChoiceFor(trials, pokes, i).timestamp.value <= pokes[k].time
  {
    ChoiceIsFirstEventInWindow(trials, pokes, i);
  }

  // ---------------------------------------------------------------------------
  // The choice as evidently intended: the first poke INTO a port.
  // ---------------------------------------------------------------------------

  /** The first poke-in of `evs`, if any. */
  function FirstPokeIn(evs: seq<PokeEvent>): (r: Option<PokeEvent>)
    ensures r.Some? ==> exists j :: 0 <= j < |evs| && evs[j] == r.value && Classify(evs[j]).PokeIn?
                          && forall m :: 0 <= m < j ==> Classify(evs[m]) == PokeOut
    ensures r.None? ==> forall k :: 0 <= k < |evs| ==> Classify(evs[k]) == PokeOut
  {
    if evs == [] then None
    else if Classify(evs[0]).PokeIn? then Some(evs[0])
    else
      var r := FirstPokeIn(evs[1..]);
      assert forall k :: 1 <= k < |evs| ==> evs[k] == evs[1..][k - 1];
      r
  }

  /** Row `i` when only a poke into a port may stand as the choice. */
  function IntendedChoiceFor(trials: seq<TrialRow>, pokes: seq<PokeEvent>, i: nat): (c: Choice)
    requires i < |trials|
    ensures c == NoChoice <==>
              IsAborted(trials[i].completionCode)
              || forall k :: 0 <= k < |WindowPokes(trials, pokes, i)| ==>
                   Classify(WindowPokes(trials, pokes, i)[k]) == PokeOut
    ensures c != NoChoice ==>
              exists j :: 0 <= j < |WindowPokes(trials, pokes, i)|
                && Classify(WindowPokes(trials, pokes, i)[j]) == PokeIn(c.port)
                && c.timestamp == Some(WindowPokes(trials, pokes, i)[j].time)
                && forall m :: 0 <= m < j ==> Classify(WindowPokes(trials, pokes, i)[m]) == PokeOut
  {
    if IsAborted(trials[i].completionCode) then NoChoice
    else
      match FirstPokeIn(WindowPokes(trials, pokes, i))
      case None => NoChoice
      case Some(e) => Choice(Classify(e).port, Some(e.time))
  }

  /** When the response window opens with a poke into a port, the written and
      the intended choice agree. */
  lemma IntendedAgreesWhenWindowOpensWithPokeIn(trials: seq<TrialRow>, pokes: seq<PokeEvent>, i: nat)
    requires i < |trials|
    requires WindowPokes(trials, pokes, i) != [] && Classify(WindowPokes(trials, pokes, i)[0]).PokeIn?
    ensures ChoiceFor(trials, pokes, i) == IntendedChoiceFor(trials, pokes, i)
  {
    var w := WindowPokes(trials, pokes, i);
    assert FirstPokeIn(w) == Some(w[0]);
  }

  /** The slip as written: when the first event of the response window is the
      animal leaving a port, the trial is recorded as a choice of port 1 at the
      time it left, although its first poke in was into port 0. */
  lemma PokeOutRecordedAsPortOne()
    ensures var trials := [TrialRow("Completed", Some(0.0), Some(1.0))];
            var pokes := [Event(2.0, PortFlags(false, false)), Event(3.0, PortFlags(true, false))];
            && ChoiceFor(trials, pokes, 0) == Choice(1, Some(2.0))
            && IntendedChoiceFor(trials, pokes, 0) == Choice(0, Some(3.0))
  {
    var trials := [TrialRow("Completed", Some(0.0), Some(1.0))];
    var pokes := [Event(2.0, PortFlags(false, false)), Event(3.0, PortFlags(true, false))];
    forall k | 0 <= k <= 2 ensures !OccursAt("Completed", "Aborted", k) {
      assert "Completed"[k] != "Aborted"[0];
    }
    assert !Contains("Completed", "Aborted");
    assert !Contains("Completed", "DotTimeLimitReached");
    assert ResponseWindow(trials, 0) == Some((1.0, 100.0));
    assert WindowPokes(trials, pokes, 0) == pokes;
  }
}
