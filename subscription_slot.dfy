/**
 * The adapter's single upstream-subscription slot, and the record of the
 * `unsubscribe()` calls the adapter makes on the subscriptions it releases.
 */
module SubscriptionSlot {
  import opened Wrappers

  /** A subscription handle handed to an observer's `start` callback. */
  type SubscriptionId = nat

  /** The slot, plus every subscription the adapter has called `unsubscribe()` on, in call order. */
  datatype Slot = Slot(active: Option<SubscriptionId>, released: seq<SubscriptionId>)

  /**
   * Releasing the slot (at the start of `subscribe`, and on entering CLOSED):
   * unsubscribe the active subscription, if any, once, then clear the slot.
   */
  function Release(s: Slot): (r: Slot)
    ensures r.active == None
    ensures |r.released| == |s.released| + (if s.active.Some? then 1 else 0)
    ensures r.released[..|s.released|] == s.released
    ensures s.active.Some? ==> r.released[|s.released|] == s.active.value
  {
    match s.active
    case None => s
    case Some(id) => Slot(None, s.released + [id])
  }

  /** An observer's `start(subscription)`: its subscription becomes the active one. */
  function Start(s: Slot, own: SubscriptionId): (r: Slot)
    ensures r.active == Some(own) && r.released == s.released
  {
    s.(active := Some(own))
  }

  /**
   * An observer's `complete()` or `error()`: the slot is cleared only while it still
   * holds that observer's own subscription, so a late completion from a replaced
   * subscription leaves the newer one in place. Nothing is unsubscribed.
   */
  function Finish(s: Slot, own: SubscriptionId): (r: Slot)
    ensures r.released == s.released
    ensures s.active == Some(own) ==> r.active == None
    ensures s.active != Some(own) ==> r.active == s.active
  {
    if s.active == Some(own) then s.(active := None) else s
  }

  /** The calls that act on the slot. */
  datatype SlotCall = ReleaseCall | StartCall(id: SubscriptionId) | FinishCall(id: SubscriptionId)

  function Apply(s: Slot, c: SlotCall): Slot {
    match c
    case ReleaseCall => Release(s)
    case StartCall(id) => Start(s, id)
    case FinishCall(id) => Finish(s, id)
  }

  /** The slot after a series of calls made in order. */
  function Run(s: Slot, calls: seq<SlotCall>): Slot
    decreases |calls|
  {
    if calls == [] then s else Run(Apply(s, calls[0]), calls[1..])
  }

  /** The subscriptions handed to `start` callbacks in a series of calls. */
  function StartedIds(calls: seq<SlotCall>): seq<SubscriptionId>
    decreases |calls|
  {
    if calls == [] then []
    else (if calls[0].StartCall? then [calls[0].id] else []) + StartedIds(calls[1..])
  }

  /**
   * The slot is ready for a series of calls whose subscriptions are all new: no
   * subscription has been released twice, the active one has not been released,
   * and no subscription still to start is active or released already.
   */
  ghost predicate FreshFor(s: Slot, calls: seq<SlotCall>) {
    var started := StartedIds(calls);
    && NoDuplicates(s.released)
    && NoDuplicates(started)
    && (s.active.Some? ==> s.active.value !in s.released && s.active.value !in started)
    && (forall id :: id in started ==> id !in s.released)
  }

  lemma NoDuplicatesSplit<T>(a: seq<T>, b: seq<T>)
    requires NoDuplicates(a + b)
    ensures NoDuplicates(b)
    ensures forall x :: x in a ==> x !in b
  {
    forall i, j | 0 <= i < j < |b|
      ensures b[i] != b[j]
    {
      assert b[i] == (a + b)[|a| + i] && b[j] == (a + b)[|a| + j];
    }
    forall x | x in a
      ensures x !in b
    {
      var i :| 0 <= i < |a| && a[i] == x;
      forall j | 0 <= j < |b|
        ensures b[j] != x
      {
        assert a[i] == (a + b)[i] && b[j] == (a + b)[|a| + j];
      }
    }
  }

  /**
   * Whatever the interleaving of `subscribe`, CLOSED, `start`, `complete` and
   * `error` calls, as long as every `start` brings a new subscription, the adapter
   * calls `unsubscribe()` at most once on each subscription.
   */
  lemma {:induction false} EachReleasedAtMostOnce(s: Slot, calls: seq<SlotCall>)
    requires FreshFor(s, calls)
    ensures NoDuplicates(Run(s, calls).released)
    decreases |calls|
  {
    if calls != [] {
      var c := calls[0];
      var tail := calls[1..];
      var next := Apply(s, c);
      assert FreshFor(next, tail) by {
        var started := StartedIds(calls);
        var rest := StartedIds(tail);
        var head := if c.StartCall? then [c.id] else [];
        assert started == head + rest;
        NoDuplicatesSplit(head, rest);
        assert forall id :: id in rest ==> id in started;
        match c
        case ReleaseCall =>
          if s.active.Some? {
            assert next.released == s.released + [s.active.value];
          }
        case StartCall(id) =>
          assert id in head;
        case FinishCall(id) =>
      }
      EachReleasedAtMostOnce(next, tail);
    }
  }
}
