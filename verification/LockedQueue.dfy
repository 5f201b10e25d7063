/** The mutex-protected ring queue the server links, and its eventfd. */
module LockedQueue {
  import opened Options

  /** The `n` elements of a ring from `start` on. */
  function Window<T>(ring: seq<T>, start: nat, n: nat): (r: seq<T>)
    requires start <= |ring| && n <= |ring|
    ensures |r| == n
  {
    if start + n <= |ring| then ring[start..start + n] else ring[start..] + ring[..start + n - |ring|]
  }

  /** The index `n` places behind `start`. */
  function Around(start: nat, n: nat, size: nat): nat {
    if start + n < size then start + n else start + n - size
  }

  lemma NextOffset(x: nat, size: nat)
    requires x < size
    ensures (x + 1) % size == Around(x, 1, size)
  {
    if x + 1 < size {
      assert (x + 1) % size == x + 1;
    }
  }

  lemma WindowPush<T>(ring: seq<T>, start: nat, n: nat, item: T)
    requires start < |ring| && n < |ring|
    ensures var at := Around(start, n, |ring|);
      at < |ring| && Window(ring[at := item], start, n + 1) == Window(ring, start, n) + [item]
  {
  }

  lemma WindowPop<T>(ring: seq<T>, start: nat, n: nat)
    requires start < |ring| && 0 < n <= |ring|
    ensures Window(ring, start, n) == [ring[start]] + Window(ring, Around(start, 1, |ring|), n - 1)
  {
  }

  /** One queue. Each method is one critical section. */
  class Queue<T(0)> {
    var ring: array<T>
    var currentSize: nat
    var enqueueOffset: nat
    var dequeueOffset: nat
    var addEvent: nat

    ghost predicate Valid()
      reads this
    {
      && currentSize <= ring.Length
      && (ring.Length == 0 ==> enqueueOffset == dequeueOffset == 0)
      && (ring.Length > 0 ==>
            dequeueOffset < ring.Length && enqueueOffset == Around(dequeueOffset, currentSize, ring.Length))
    }

    /** The items in the order they will leave. */
    ghost function Contents(): (s: seq<T>)
      requires Valid()
      reads this, ring
      ensures |s| == currentSize
    {
      Window(ring[..], dequeueOffset, currentSize)
    }

    constructor (maxSize: nat)
      ensures Valid() && fresh(ring) && ring.Length == maxSize && Contents() == [] && addEvent == 0
    {
      ring := new T[maxSize];
      currentSize, enqueueOffset, dequeueOffset, addEvent := 0, 0, 0, 0;
    }

    method Size() returns (n: nat)
      requires Valid()
      ensures n == |Contents()|
    {
      n := currentSize;
    }

    /** Fails exactly on a full queue, and then changes nothing; otherwise appends and notifies once. */
    method Push(item: T) returns (ok: bool)
      requires Valid()
      modifies this, ring
      ensures Valid() && ring == old(ring)
      ensures ok <==> old(|Contents()|) < ring.Length
      ensures Contents() == if ok then old(Contents()) + [item] else old(Contents())
      ensures addEvent == old(addEvent) + if ok then 1 else 0
    {
      if currentSize == ring.Length {
        return false;
      }
      hide Window;
      WindowPush(ring[..], dequeueOffset, currentSize, item);
      NextOffset(enqueueOffset, ring.Length);
      ghost var before := ring[..];
      ring[enqueueOffset] := item;
      assert ring[..] == before[enqueueOffset := item];
      enqueueOffset := (enqueueOffset + 1) % ring.Length;
      currentSize := currentSize + 1;
      addEvent := addEvent + 1;
      ok := true;
    }

    /** NULL exactly on an empty queue; otherwise the oldest item. */
    method Pop() returns (r: Option<T>)
      requires Valid()
      modifies this`currentSize, this`dequeueOffset
      ensures Valid()
      ensures r == if old(Contents()) == [] then None else Some(old(Contents())[0])
      ensures Contents() == if old(Contents()) == [] then [] else old(Contents())[1..]
    {
      if currentSize == 0 {
        return None;
      }
      hide Window;
      WindowPop(ring[..], dequeueOffset, currentSize);
      NextOffset(dequeueOffset, ring.Length);
      r := Some(ring[dequeueOffset]);
      dequeueOffset := (dequeueOffset + 1) % ring.Length;
      currentSize := currentSize - 1;
    }
  }
}
