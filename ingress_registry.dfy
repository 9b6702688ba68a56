/**
 * The ordered registry of consumer queues behind `activities`, `ingress` and
 * `close`, and the array operations its abort handler uses (`indexOf`, `~`,
 * `splice`), with JavaScript's semantics written out.
 */
module IngressRegistry {
  import opened Wrappers

  /** The largest length a JavaScript array can have. */
  const MaxArrayLength: nat := 0xFFFF_FFFF

  /**
   * `Array.prototype.indexOf` with identity comparison: the first position that
   * holds `x`, or -1 when no position does.
   */
  function IndexOf<T(==)>(s: seq<T>, x: T): (r: int)
    ensures -1 <= r < |s|
    ensures r == -1 <==> x !in s
    ensures 0 <= r ==> s[r] == x && x !in s[..r]
    decreases |s|
  {
    if s == [] then -1
    else if s[0] == x then 0
    else
      var k := IndexOf(s[1..], x);
      assert k >= 0 ==> s[..k + 1] == [s[0]] + s[1..][..k];
      if k == -1 then -1 else k + 1
  }

  /** ECMAScript ToInt32: the integer taken modulo 2^32 into the signed 32-bit range. */
  function ToInt32(x: int): (r: int)
    ensures -0x8000_0000 <= r < 0x8000_0000
    ensures (x - r) % 0x1_0000_0000 == 0
  {
    var m := x % 0x1_0000_0000;
    if m < 0x8000_0000 then m else m - 0x1_0000_0000
  }

  /**
   * The bitwise complement operator `~`, which works on the 32-bit two's-complement
   * value: the result is a 32-bit integer, and it and the operand's 32-bit value sum to -1.
   */
  function BitwiseNot(x: int): (r: int)
    ensures -0x8000_0000 <= r < 0x8000_0000
    ensures r + ToInt32(x) == -1
  {
    -ToInt32(x) - 1
  }

  /** For any result `indexOf` can return, `~index` is 0 (falsy) exactly when the index is -1. */
  lemma ComplementOfIndex(x: int)
    requires -1 <= x < MaxArrayLength
    ensures BitwiseNot(x) == 0 <==> x == -1
  {
    if x >= 0x8000_0000 {
      assert ToInt32(x) == x - 0x1_0000_0000;
    }
  }

  /** Where `splice(start, …)` begins: a negative start counts back from the end; both are clamped to the array. */
  function SpliceStart(length: nat, start: int): (k: nat)
    ensures k <= length
    ensures start < 0 && -start <= length ==> k == length + start
    ensures 0 <= start <= length ==> k == start
  {
    if start < 0 then (if length + start < 0 then 0 else length + start)
    else if start > length then length
    else start
  }

  /** The array left by `splice(start, deleteCount)`: the window of at most `deleteCount` elements from the start is removed. */
  function Splice<T>(s: seq<T>, start: int, deleteCount: nat): (r: seq<T>)
    ensures var k := SpliceStart(|s|, start);
            && |r| == |s| - (if deleteCount <= |s| - k then deleteCount else |s| - k)
            && r[..k] == s[..k]
            && r[k..] == s[|s| - (|r| - k)..]
  {
    var k := SpliceStart(|s|, start);
    var e := if k + deleteCount <= |s| then k + deleteCount else |s|;
    s[..k] + s[e..]
  }

  /** Removing a window keeps every remaining element, in order, and introduces no duplicate. */
  lemma SpliceKeepsElements<T>(s: seq<T>, start: int, deleteCount: nat)
    ensures forall x :: x in Splice(s, start, deleteCount) ==> x in s
    ensures NoDuplicates(s) ==> NoDuplicates(Splice(s, start, deleteCount))
  {
    var k := SpliceStart(|s|, start);
    var e := if k + deleteCount <= |s| then k + deleteCount else |s|;
    var r := Splice(s, start, deleteCount);
    assert forall i :: 0 <= i < |r| ==> r[i] == (if i < k then s[i] else s[i - k + e]);
  }

  /**
   * The abort handler as written (`~index || registry.splice(index, 1)`): the
   * splice runs only when `~index` is falsy, that is when the queue was NOT found,
   * and then `splice(-1, 1)` removes the last element. Either way it removes at
   * most one queue and adds none.
   */
  function AbortAsWritten<T(==)>(registry: seq<T>, q: T): (r: seq<T>)
    ensures |registry| - 1 <= |r| <= |registry|
    ensures forall x :: x in r ==> x in registry
  {
    var index := IndexOf(registry, q);
    SpliceKeepsElements(registry, index, 1);
    if BitwiseNot(index) != 0 then registry else Splice(registry, index, 1)
  }

  /** As written, aborting a queue that is still registered leaves the registry untouched. */
  lemma AbortAsWrittenKeepsRegisteredQueue<T>(registry: seq<T>, q: T)
    requires |registry| <= MaxArrayLength
    requires q in registry
    ensures AbortAsWritten(registry, q) == registry
    ensures q in AbortAsWritten(registry, q)
  {
    ComplementOfIndex(IndexOf(registry, q));
  }

  /** As written, aborting a queue that is no longer registered drops the last registered queue. */
  lemma AbortAsWrittenDropsLast<T>(registry: seq<T>, q: T)
    requires q !in registry
    ensures registry == [] ==> AbortAsWritten(registry, q) == []
    ensures registry != [] ==> AbortAsWritten(registry, q) == registry[..|registry| - 1]
  {
    ComplementOfIndex(-1);
  }

  /**
   * Concrete inputs: the registry [1] aborting 1 keeps 1 registered; after a
   * `close()` emptied the registry and a new queue 2 registered, the late abort of
   * 1 unregisters 2.
   */
  lemma AbortAsWrittenCounterexample()
    ensures AbortAsWritten([1], 1) == [1]
    ensures AbortAsWritten([2], 1) == []
  {
    AbortAsWrittenKeepsRegisteredQueue([1], 1);
    AbortAsWrittenDropsLast([2], 1);
  }

  /**
   * The abort handler as evidently intended (`~index && registry.splice(index, 1)`):
   * it too removes at most one queue and adds none.
   */
  function AbortIntended<T(==)>(registry: seq<T>, q: T): (r: seq<T>)
    ensures |registry| - 1 <= |r| <= |registry|
    ensures forall x :: x in r ==> x in registry
  {
    var index := IndexOf(registry, q);
    SpliceKeepsElements(registry, index, 1);
    if BitwiseNot(index) == 0 then registry else Splice(registry, index, 1)
  }

  /**
   * The intended handler unregisters exactly the aborted queue: it is gone, every
   * other queue stays registered in its order, and nothing else is removed.
   */
  lemma AbortIntendedRemovesOnlyThatQueue<T>(registry: seq<T>, q: T)
    requires |registry| <= MaxArrayLength
    requires NoDuplicates(registry)
    ensures var r := AbortIntended(registry, q);
            && q !in r
            && (forall x :: x in r <==> x in registry && x != q)
            && |r| == |registry| - (if q in registry then 1 else 0)
            && NoDuplicates(r)
            && (q in registry ==>
                  var i := IndexOf(registry, q);
                  r == registry[..i] + registry[i + 1..])
  {
    var index := IndexOf(registry, q);
    ComplementOfIndex(index);
    SpliceKeepsElements(registry, index, 1);
  }
}
