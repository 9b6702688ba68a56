/**
 * The adapter's ready-state machine: CONNECTING (initial), OPEN and CLOSED
 * (terminal), with the checks `setReadyState` applies to a requested value.
 */
module ReadyStates {

  /** Any value a caller can pass to `setReadyState`; `Unrecognized` stands for a value outside the enumeration. */
  datatype StateValue = Connecting | Open | Closed | Unrecognized(code: int)

  /** The values the adapter's ready state can actually hold. */
  type ReadyState = s: StateValue | !s.Unrecognized? witness Connecting

  /** The lifecycle events the adapter dispatches. */
  datatype LifecycleEvent = OpenEvent | ErrorEvent

  /** The two errors `setReadyState` throws. */
  datatype StateError = ChangeAfterClosed | NotAReadyState

  /** What one `setReadyState` call does. */
  datatype Transition =
    | Unchanged
    | Rejected(error: StateError)
    | Entered(state: ReadyState, event: LifecycleEvent)

  /**
   * `setReadyState(requested)` from `current`: asking for the current state is a
   * no-op (even when CLOSED); any other request from CLOSED, and any unrecognized
   * value, is rejected; everything else enters the requested state and dispatches
   * `open` when that state is OPEN and `error` otherwise.
   */
  function Step(current: ReadyState, requested: StateValue): (t: Transition)
    ensures t == Unchanged <==> requested == current
    ensures t.Rejected? <==> requested != current && (current == Closed || requested.Unrecognized?)
    ensures t.Rejected? ==> (t.error == ChangeAfterClosed <==> current == Closed)
    ensures t.Entered? ==> t.state == requested && t.state != current && current != Closed
    ensures t.Entered? ==> (t.event == OpenEvent <==> t.state == Open)
  {
    if requested == current then Unchanged
    else if current == Closed then Rejected(ChangeAfterClosed)
    else if requested.Unrecognized? then Rejected(NotAReadyState)
    else Entered(requested, if requested == Open then OpenEvent else ErrorEvent)
  }

  /**
   * The state reached and the events dispatched by a series of `setReadyState`
   * calls made in order, where a call that throws is caught by its caller.
   */
  function Run(current: ReadyState, requests: seq<StateValue>): (ReadyState, seq<LifecycleEvent>)
    decreases |requests|
  {
    if requests == [] then (current, [])
    else
      match Step(current, requests[0])
      case Entered(s, e) =>
        var rest := Run(s, requests[1..]);
        (rest.0, [e] + rest.1)
      case _ => Run(current, requests[1..])
  }

  /** Once CLOSED, no series of requests changes the state or dispatches an event. */
  lemma {:induction false} ClosedIsAbsorbing(requests: seq<StateValue>)
    ensures Run(Closed, requests) == (Closed, [])
    decreases |requests|
  {
    if requests != [] {
      ClosedIsAbsorbing(requests[1..]);
    }
  }

  /** Running two series of requests one after the other is running their concatenation. */
  lemma {:induction false} RunAppend(current: ReadyState, xs: seq<StateValue>, ys: seq<StateValue>)
    ensures var first := Run(current, xs);
            var second := Run(first.0, ys);
            Run(current, xs + ys) == (second.0, first.1 + second.1)
    decreases |xs|
  {
    if xs == [] {
      assert xs + ys == ys;
      var events := Run(current, ys).1;
      assert [] + events == events;
    } else {
      assert (xs + ys)[0] == xs[0];
      assert (xs + ys)[1..] == xs[1..] + ys;
      match Step(current, xs[0])
      case Entered(s, e) =>
        RunAppend(s, xs[1..], ys);
        var first := Run(s, xs[1..]);
        var second := Run(first.0, ys);
        assert [e] + (first.1 + second.1) == ([e] + first.1) + second.1;
      case _ =>
        RunAppend(current, xs[1..], ys);
    }
  }

  /**
   * CLOSED is terminal: once some prefix of the requests has reached CLOSED, the
   * whole series ends in CLOSED and the rest of it dispatched nothing.
   */
  lemma ClosedIsTerminal(current: ReadyState, requests: seq<StateValue>, k: nat)
    requires k <= |requests|
    requires Run(current, requests[..k]).0 == Closed
    ensures Run(current, requests) == (Closed, Run(current, requests[..k]).1)
  {
    assert requests == requests[..k] + requests[k..];
    RunAppend(current, requests[..k], requests[k..]);
    ClosedIsAbsorbing(requests[k..]);
    var events := Run(current, requests[..k]).1;
    assert events + [] == events;
  }

  /**
   * Every state change dispatches one event, so the last event dispatched tells a
   * listener whether the adapter is OPEN; with no event the state never moved.
   */
  lemma {:induction false} LastEventTracksState(current: ReadyState, requests: seq<StateValue>)
    ensures var r := Run(current, requests);
            (r.1 == [] ==> r.0 == current) &&
            (r.1 != [] ==> (r.1[|r.1| - 1] == OpenEvent <==> r.0 == Open))
    decreases |requests|
  {
    if requests != [] {
      match Step(current, requests[0])
      case Entered(s, e) =>
        LastEventTracksState(s, requests[1..]);
      case _ =>
        LastEventTracksState(current, requests[1..]);
    }
  }
}
