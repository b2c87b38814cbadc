/** Per-trial time windows over a time-stamped event stream
    (the masks `(t >= start) & (t <= end)` of timestamps/harp/utils.py). */
module Windows {

  /** One row of an event table: its time and the columns that describe it. */
  datatype Event<P> = Event(time: real, payload: P)

  /** The seconds added to the last trial start to close the last window. */
  const LastTrialSpan: real := 100.0

  /** End of trial `i`'s window: the next trial's start, or `LastTrialSpan`
      seconds after the start of the last trial. */
  function WindowEnd(starts: seq<real>, i: nat): (end: real)
    requires i < |starts|
    ensures i < |starts| - 1 ==> end == starts[i + 1]
    ensures i == |starts| - 1 ==> end == starts[i] + LastTrialSpan
  {
    if i < |starts| - 1 then starts[i + 1] else starts[i] + LastTrialSpan
  }

  /** Start times that never decrease: the order the trials were run in. */
  predicate Ascending(starts: seq<real>)
  {
    forall i, j :: 0 <= i < j < |starts| ==> starts[i] <= starts[j]
  }

  /** The events with `lo <= time <= hi`, in their original order
      (a boolean-mask selection of the table rows). */
  function Between<P>(events: seq<Event<P>>, lo: real, hi: real): (r: seq<Event<P>>)
    ensures |r| <= |events|
    ensures forall k :: 0 <= k < |r| ==> lo <= r[k].time <= hi
    ensures r == [] <==> forall k :: 0 <= k < |events| ==> !(lo <= events[k].time <= hi)
  {
    if events == [] then []
    else
      var rest := Between(events[1..], lo, hi);
      assert forall k :: 0 < k < |events| ==> events[k] == events[1..][k - 1];
      (if lo <= events[0].time <= hi then [events[0]] else []) + rest
  }

  /** The events of trial `i`: both ends of the window are inclusive. */
  function TrialEvents<P>(events: seq<Event<P>>, starts: seq<real>, i: nat): seq<Event<P>>
    requires i < |starts|
  {
    Between(events, starts[i], WindowEnd(starts, i))
  }

  /** An event is selected exactly when it occurs in the stream inside the window. */
  lemma {:induction false} BetweenMembers<P>(events: seq<Event<P>>, lo: real, hi: real, e: Event<P>)
    ensures e in Between(events, lo, hi) <==> e in events && lo <= e.time <= hi
  {
    if events != [] {
      BetweenMembers(events[1..], lo, hi, e);
      assert events == [events[0]] + events[1..];
    }
  }

  /** Selection keeps the stream's order: it distributes over concatenation. */
  lemma {:induction false} BetweenConcat<P>(a: seq<Event<P>>, b: seq<Event<P>>, lo: real, hi: real)
    ensures Between(a + b, lo, hi) == Between(a, lo, hi) + Between(b, lo, hi)
  {
    if a == [] {
      assert a + b == b;
    } else {
      assert (a + b)[1..] == a[1..] + b;
      BetweenConcat(a[1..], b, lo, hi);
    }
  }

  /** The first selected event is the earliest event of the stream (by position)
      that lies in the window. */
  lemma {:induction false} BetweenFirst<P>(events: seq<Event<P>>, lo: real, hi: real)
    requires Between(events, lo, hi) != []
    ensures exists j :: 0 <= j < |events| && events[j] == Between(events, lo, hi)[0]
              && forall m :: 0 <= m < j ==> !(lo <= events[m].time <= hi)
  {
    if lo <= events[0].time <= hi {
      assert events[0] == Between(events, lo, hi)[0];
    } else {
      BetweenFirst(events[1..], lo, hi);
      var j :| 0 <= j < |events[1..]| && events[1..][j] == Between(events[1..], lo, hi)[0]
                && forall m :: 0 <= m < j ==> !(lo <= events[1..][m].time <= hi);
      assert events[j + 1] == Between(events, lo, hi)[0];
      forall m | 0 <= m < j + 1 ensures !(lo <= events[m].time <= hi) {
        if m > 0 { assert events[m] == events[1..][m - 1]; }
      }
    }
  }

  /** An empty window selects nothing; a window no event falls in selects nothing. */
  lemma {:induction false} BetweenEmpty<P>(events: seq<Event<P>>, lo: real, hi: real)
    requires forall k :: 0 <= k < |events| ==> !(lo <= events[k].time <= hi)
    ensures Between(events, lo, hi) == []
  {
    if events != [] {
      BetweenEmpty(events[1..], lo, hi);
    }
  }

  /** An event at the start of trial `i + 1` belongs to trial `i` and to trial `i + 1`,
      because both window ends are inclusive. */
  lemma BoundaryEventInTwoTrials<P>(events: seq<Event<P>>, starts: seq<real>, i: nat, e: Event<P>)
    requires i + 1 < |starts| && Ascending(starts)
    requires e in events && e.time == starts[i + 1]
    ensures e in TrialEvents(events, starts, i)
    ensures e in TrialEvents(events, starts, i + 1)
  {
    if i + 1 < |starts| - 1 {
      assert starts[i + 1] <= starts[i + 2];
    }
    BetweenMembers(events, starts[i], WindowEnd(starts, i), e);
    BetweenMembers(events, starts[i + 1], WindowEnd(starts, i + 1), e);
  }

  /** Every event falls in a trial window when it lies between the first start
      and `LastTrialSpan` seconds after the last one. */
  lemma EveryEventInSomeTrial<P>(events: seq<Event<P>>, starts: seq<real>, e: Event<P>)
    requires |starts| > 0 && Ascending(starts)
    requires e in events && starts[0] <= e.time <= starts[|starts| - 1] + LastTrialSpan
    ensures exists i :: 0 <= i < |starts| && e in TrialEvents(events, starts, i)
  {
    var i := 0;
    while i < |starts| - 1 && starts[i + 1] <= e.time
      invariant 0 <= i < |starts| && starts[i] <= e.time
    {
      i := i + 1;
    }
    assert e.time <= WindowEnd(starts, i);
    BetweenMembers(events, starts[i], WindowEnd(starts, i), e);
    assert e in TrialEvents(events, starts, i);
  }
}
