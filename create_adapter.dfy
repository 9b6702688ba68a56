/**
 * The adapter object built by `createAdapter`: the sealed config store, the
 * ready-state machine, the single upstream-subscription slot and the ingress
 * fan-out registry, all held as fields and changed in place by its methods.
 */
module CreateAdapter {
  import opened Wrappers
  import opened ConfigStore
  import opened ReadyStates
  import opened SubscriptionSlot
  import opened IngressRegistry
  import opened AsyncQueue

  /** An upstream observable handed to `subscribe`. */
  type ObservableId = nat

  /** The error `egress()` rejects with when no enhancer provides it. */
  datatype EgressError = NoEgressEnhancer

  /** Every piece of the adapter's state, for stating what a method leaves unchanged. */
  datatype AdapterState<A> = AdapterState(
    config: Config,
    sealed: bool,
    sealedKeys: set<Key>,
    readyState: ReadyState,
    events: seq<LifecycleEvent>,
    slot: Slot,
    attached: seq<ObservableId>,
    queues: seq<Queue<A>>)

  class Adapter<A> {
    var config: Config
    var sealed: bool
    var readyState: ReadyState
    var active: Option<SubscriptionId>
    var queues: seq<Queue<A>>

    /** The names present when the store was sealed. */
    ghost var sealedKeys: set<Key>
    /** The lifecycle events dispatched, in order. */
    ghost var events: seq<LifecycleEvent>
    /** The subscriptions `unsubscribe()` was called on, in order. */
    ghost var unsubscribed: seq<SubscriptionId>
    /** The observables `subscribe` attached an observer to, in order. */
    ghost var attached: seq<ObservableId>

    /**
     * Sealing fixes the key set; the registry holds each queue once; a registered
     * queue has not ended (closing ends queues only as it unregisters them).
     */
    ghost predicate Valid()
      reads this, queues
    {
      && (sealed ==> config.Keys == sealedKeys)
      && NoDuplicates(queues)
      && (forall i :: 0 <= i < |queues| ==> !queues[i].ended)
    }

    ghost function SlotState(): Slot
      reads this
    {
      Slot(active, unsubscribed)
    }

    ghost function State(): AdapterState<A>
      reads this
    {
      AdapterState(config, sealed, sealedKeys, readyState, events, SlotState(), attached, queues)
    }

    /** The base factory's state: empty config, unsealed, CONNECTING, no subscription, no queues. */
    constructor ()
      ensures Valid()
      ensures config == map[] && !sealed && readyState == Connecting
      ensures active == None && queues == []
      ensures events == [] && unsubscribed == [] && attached == []
    {
      config := map[];
      sealed := false;
      readyState := Connecting;
      active := None;
      queues := [];
      sealedKeys := {};
      events := [];
      unsubscribed := [];
      attached := [];
    }

    /** The `sealed = true` step after the enhancers have built the adapter; the map itself is untouched. */
    method Seal()
      requires Valid()
      modifies this
      ensures Valid()
      ensures State() == old(State()).(sealed := true, sealedKeys := old(config).Keys)
    {
      sealed := true;
      sealedKeys := config.Keys;
    }

    /** `getConfig(name)`: a written name reads back its value; a defined reading means the name is present. */
    function GetConfig(name: Key): (v: ConfigValue)
      reads this
      ensures name in config ==> v == config[name]
      ensures v != UndefinedValue ==> name in config
    {
      Get(config, name)
    }

    /** `setConfig(name, value)`: throws for a name that is new after sealing, and then changes nothing. */
    method SetConfig(name: Key, value: ConfigValue) returns (r: Outcome<ConfigError>)
      requires Valid()
      modifies this
      ensures Valid()
      ensures match Set(old(config), old(sealed), name, value)
        case Success(c) => r == Pass && State() == old(State()).(config := c)
        case Failure(e) => r == Fail(e) && State() == old(State())
    {
      if sealed && name !in config {
        return Fail(NotSetBeforeSealed(name));
      }
      config := config[name := value];
      r := Pass;
    }

    /** `getReadyState()`: a pure read of the current state. */
    function GetReadyState(): (s: ReadyState)
      reads this
      ensures s == readyState
    {
      readyState
    }

    /**
     * `setReadyState(requested)`: a no-op or a thrown error with nothing changed, or
     * the new state with exactly one event dispatched; entering CLOSED first
     * releases the active subscription.
     */
    method SetReadyState(requested: StateValue) returns (r: Outcome<StateError>)
      requires Valid()
      modifies this
      ensures Valid()
      ensures match Step(old(readyState), requested)
        case Unchanged => r == Pass && State() == old(State())
        case Rejected(e) => r == Fail(e) && State() == old(State())
        case Entered(s, ev) =>
          && r == Pass
          && State() == old(State()).(
               readyState := s,
               events := old(events) + [ev],
               slot := if s == Closed then Release(old(SlotState())) else old(SlotState()))
    {
      if requested == readyState {
        return Pass;
      }
      if readyState == Closed {
        return Fail(ChangeAfterClosed);
      } else if requested != Closed && requested != Connecting && requested != Open {
        return Fail(NotAReadyState);
      }
      readyState := requested;
      if requested == Closed {
        if active.Some? {
          unsubscribed := unsubscribed + [active.value];
        }
        active := None;
      }
      events := events + [if requested == Open then OpenEvent else ErrorEvent];
      r := Pass;
    }

    /**
     * `subscribe(observable)`: always releases the active subscription first; with
     * `false` it stops there, otherwise it attaches an observer to the observable.
     */
    method Subscribe(observable: Option<ObservableId>)
      requires Valid()
      modifies this
      ensures Valid()
      ensures State() == old(State()).(
        slot := Release(old(SlotState())),
        attached := old(attached) + (if observable.Some? then [observable.value] else []))
    {
      if active.Some? {
        unsubscribed := unsubscribed + [active.value];
      }
      active := None;
      if observable.None? {
        return;
      }
      attached := attached + [observable.value];
    }

    /** The observer's `start(subscription)` callback. */
    method Start(own: SubscriptionId)
      requires Valid()
      modifies this
      ensures Valid()
      ensures State() == old(State()).(slot := SubscriptionSlot.Start(old(SlotState()), own))
    {
      active := Some(own);
    }

    /** The observer's `complete()` callback, for the observer whose subscription is `own`. */
    method Complete(own: SubscriptionId)
      requires Valid()
      modifies this
      ensures Valid()
      ensures State() == old(State()).(slot := Finish(old(SlotState()), own))
    {
      if active == Some(own) {
        active := None;
      }
    }

    /** The observer's `error(error)` callback: the same bookkeeping as `complete`; the error goes nowhere. */
    method Error(own: SubscriptionId)
      requires Valid()
      modifies this
      ensures Valid()
      ensures State() == old(State()).(slot := Finish(old(SlotState()), own))
    {
      if active == Some(own) {
        active := None;
      }
    }

    /** The observer's `next(value)` callback: forwards the value to `ingress`. */
    method Next(value: A)
      requires Valid()
      modifies queues
      ensures Valid()
      ensures forall i :: 0 <= i < |queues| ==> queues[i].buffer == old(queues[i].buffer) + [value]
    {
      Ingress(value);
    }

    /** `activities()`: registers a fresh, empty queue at the end of the registry and hands it to the consumer. */
    method Activities() returns (q: Queue<A>)
      requires Valid()
      modifies this
      ensures Valid()
      ensures fresh(q) && q.buffer == [] && !q.ended
      ensures State() == old(State()).(queues := old(queues) + [q])
    {
      q := new Queue();
      queues := queues + [q];
    }

    /** The abort handler a queue's cancellation signal runs, as written. */
    method Abort(q: Queue<A>)
      requires Valid()
      modifies this
      ensures Valid()
      ensures State() == old(State()).(queues := AbortAsWritten(old(queues), q))
    {
      var index := IndexOf(queues, q);
      if BitwiseNot(index) == 0 {
        SpliceKeepsElements(queues, index, 1);
        queues := Splice(queues, index, 1);
      }
    }

    /**
     * `ingress(activity)`: pushes the activity onto every registered queue, in
     * registry order; the registry itself and every other object are unchanged.
     */
    method Ingress(activity: A)
      requires Valid()
      modifies queues
      ensures Valid()
      ensures forall i :: 0 <= i < |queues| ==> queues[i].buffer == old(queues[i].buffer) + [activity]
    {
      for i := 0 to |queues|
        invariant forall j :: 0 <= j < |queues| ==> !queues[j].ended
        invariant forall j :: 0 <= j < i ==> queues[j].buffer == old(queues[j].buffer) + [activity]
        invariant forall j :: i <= j < |queues| ==> queues[j].buffer == old(queues[j].buffer)
      {
        queues[i].Push(activity);
      }
    }

    /**
     * `close()`: ends every registered queue, keeping what it buffered, then empties
     * the registry; the adapter stays usable.
     */
    method Close()
      requires Valid()
      modifies this, queues
      ensures Valid()
      ensures forall i :: 0 <= i < |old(queues)| ==> old(queues)[i].ended && old(queues)[i].buffer == old(queues[i].buffer)
      ensures State() == old(State()).(queues := [])
      ensures old(queues) == [] ==> State() == old(State())
    {
      for i := 0 to |queues|
        invariant unchanged(this)
        invariant forall j :: 0 <= j < i ==> queues[j].ended && queues[j].buffer == old(queues[j].buffer)
        invariant forall j :: i <= j < |queues| ==> !queues[j].ended && queues[j].buffer == old(queues[j].buffer)
      {
        queues[i].End();
      }
      // splice(0, Infinity) removes every element.
      queues := [];
    }

    /** `egress()`: the base adapter always rejects. */
    method Egress() returns (r: Outcome<EgressError>)
      ensures r == Fail(NoEgressEnhancer)
    {
      r := Fail(NoEgressEnhancer);
    }
  }

  /**
   * A client run through the adapter's lifecycle: the sealed adapter opens with one
   * `open` event, an upstream subscription starts and completes, and the slot ends
   * empty with nothing unsubscribed.
   */
  method LifecycleScenario<A>(upstream: ObservableId, subscription: SubscriptionId)
    returns (outcome: Outcome<StateError>, state: ReadyState, slot: Option<SubscriptionId>)
    ensures outcome == Pass && state == Open && slot == None
  {
    var adapter := new Adapter<A>();
    adapter.Seal();
    outcome := adapter.SetReadyState(Open);
    assert adapter.events == [OpenEvent];
    adapter.Subscribe(Some(upstream));
    adapter.Start(subscription);
    assert adapter.active == Some(subscription);
    adapter.Complete(subscription);
    assert adapter.unsubscribed == [];
    state, slot := adapter.readyState, adapter.active;
  }

  /**
   * A client run through the fan-out: two consumers, two values forwarded by the
   * upstream observer, then `close()` twice. Each consumer holds exactly the two
   * values in order and is ended, and the registry is empty.
   */
  method FanOutScenario<A>(first: A, second: A)
    returns (received1: seq<A>, received2: seq<A>, ended1: bool, ended2: bool, registered: nat)
    ensures received1 == [first, second] && received2 == [first, second]
    ensures ended1 && ended2
    ensures registered == 0
  {
    var adapter := new Adapter<A>();
    var q1 := adapter.Activities();
    var q2 := adapter.Activities();
    assert adapter.queues == [q1, q2] && q1.buffer == [] && q2.buffer == [];
    adapter.Next(first);
    assert adapter.queues[0] == q1 && adapter.queues[1] == q2;
    assert q1.buffer == [first] && q2.buffer == [first];
    adapter.Next(second);
    assert q1.buffer == [first, second] && q2.buffer == [first, second];
    adapter.Close();
    adapter.Close();
    received1, received2 := q1.buffer, q2.buffer;
    ended1, ended2 := q1.ended, q2.ended;
    registered := |adapter.queues|;
  }
}
