/**
 * The throttle wrapper of js/responsive.js: a call runs the wrapped handler
 * only outside the throttle window and then opens the window; calls inside
 * the window are dropped; the timer set when the window opened closes it.
 * Time is not modelled: the timer's expiry is an event of its own.
 */
module Throttling {

  datatype GateEvent = Call | TimerFires

  /** How many of the calls in events run the wrapped handler, starting with the given window state. */
  function Runs(inThrottle: bool, events: seq<GateEvent>): (r: nat)
    ensures r <= multiset(events)[Call]
    ensures !inThrottle && events != [] && events[0] == Call ==> r >= 1
    decreases |events|
  {
    if events == [] then 0
    else
      assert events == [events[0]] + events[1..];
      assert multiset(events) == multiset([events[0]]) + multiset(events[1..]);
      match events[0]
      case Call => (if inThrottle then 0 else 1) + Runs(true, events[1..])
      case TimerFires => Runs(false, events[1..])
  }

  function Expiries(events: seq<GateEvent>): nat {
    multiset(events)[TimerFires]
  }

  /** Within one window, however many calls arrive, at most the first one runs. */
  lemma {:induction false} AtMostOncePerWindow(inThrottle: bool, events: seq<GateEvent>)
    requires forall i :: 0 <= i < |events| ==> events[i] == Call
    ensures Runs(inThrottle, events) == (if inThrottle || events == [] then 0 else 1)
    decreases |events|
  {
    if events != [] {
      AtMostOncePerWindow(true, events[1..]);
    }
  }

  /** Only a timer expiry re-arms the gate: runs never exceed one per expiry, plus one if the gate starts open. */
  lemma {:induction false} RunsBoundedByExpiries(inThrottle: bool, events: seq<GateEvent>)
    ensures Runs(inThrottle, events) <= (if inThrottle then 0 else 1) + Expiries(events)
    decreases |events|
  {
    if events != [] {
      assert events == [events[0]] + events[1..];
      assert multiset(events) == multiset([events[0]]) + multiset(events[1..]);
      match events[0]
      case Call => RunsBoundedByExpiries(true, events[1..]);
      case TimerFires => RunsBoundedByExpiries(false, events[1..]);
    }
  }

  /** Dropped calls are not queued: an expiry at the end runs nothing. */
  lemma {:induction false} ExpiryRunsNothing(inThrottle: bool, events: seq<GateEvent>)
    ensures Runs(inThrottle, events + [TimerFires]) == Runs(inThrottle, events)
    decreases |events|
  {
    if events == [] {
      assert events + [TimerFires] == [TimerFires];
    } else {
      assert (events + [TimerFires])[1..] == events[1..] + [TimerFires];
      match events[0]
      case Call => ExpiryRunsNothing(true, events[1..]);
      case TimerFires => ExpiryRunsNothing(false, events[1..]);
    }
  }

  /** The `inThrottle` flag captured by one throttled handler. */
  class Throttle {
    var inThrottle: bool
    const limitMs: nat

    constructor (limitMs: nat)
      ensures !inThrottle && this.limitMs == limitMs
    {
      inThrottle := false;
      this.limitMs := limitMs;
    }

    /** A call of the throttled wrapper; run says whether the wrapped handler runs. */
    method Invoke() returns (run: bool)
      modifies this
      ensures run == !old(inThrottle)
      ensures (if run then 1 else 0) == Runs(old(inThrottle), [Call])
      ensures inThrottle
    {
      run := !inThrottle;
      if run {
        inThrottle := true;
      }
    }

    /** The timer set when the window opened fires after limitMs. */
    method Expire()
      modifies this
      ensures !inThrottle
    {
      inThrottle := false;
    }
  }

  /**
   * k calls within one window followed by the timer and one more call run
   * the wrapped handler exactly twice.
   */
  method BurstThenExpiry(k: nat) returns (runs: nat)
    requires k >= 1
    ensures runs == 2
  {
    var gate := new Throttle(100);
    runs := 0;
    var i := 0;
    while i < k
      invariant 0 <= i <= k
      invariant gate.inThrottle == (i > 0)
      invariant runs == (if i == 0 then 0 else 1)
    {
      var run := gate.Invoke();
      if run {
        runs := runs + 1;
      }
      i := i + 1;
    }
    gate.Expire();
    var run := gate.Invoke();
    if run {
      runs := runs + 1;
    }
  }
}
