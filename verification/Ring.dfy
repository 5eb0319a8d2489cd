/** include/spdlog/details/circular_q.h and include/spdlog/sinks/ringbuffer_sink.h */
module Ring {

  /** The abstract queue: its items, oldest first, and how many were dropped to make room.
      Capacity -1 is the disabled queue of the default constructor and of a moved-from object. */
  datatype Bounded<T> = Bounded(capacity: int, items: seq<T>, overruns: nat)

  /** Append, then drop the oldest item if that is one too many. */
  function Push<T>(b: Bounded<T>, x: T): Bounded<T> {
    if b.capacity < 0 then b
    else
      var items := b.items + [x];
      if |items| > b.capacity then b.(items := items[1..], overruns := b.overruns + 1) else b.(items := items)
  }

  function Pop<T>(b: Bounded<T>): Bounded<T>
    requires b.items != []
  {
    b.(items := b.items[1..])
  }

  function LastOf<T>(s: seq<T>, n: nat): seq<T> {
    if n <= |s| then s[|s| - n..] else s
  }

  lemma ModPlus(r: nat, m: nat)
    requires r < m
    ensures (r + m) % m == r
  {
  }

  lemma ModSum(a: nat, b: nat, m: nat)
    requires a < m && b <= m
    ensures (a + b) % m == if a + b < m then a + b else a + b - m
  {
    if a + b >= m {
      assert a + b == (a + b - m) + m;
      ModPlus(a + b - m, m);
    }
  }

  /** The slots from head up to tail, around the end of the array. */
  function Stored<T>(a: seq<T>, head: nat, tail: nat): seq<T>
    requires head <= |a| && tail <= |a|
  {
    if tail >= head then a[head..tail] else a[head..] + a[..tail]
  }

  function Next(k: nat, m: nat): nat {
    if k + 1 == m then 0 else k + 1
  }

  lemma StoredWrap<T>(a: seq<T>, head: nat, tail: nat)
    requires head < |a| && tail == |a|
    ensures Stored(a, head, tail) == if head == 0 then a else Stored(a, head, 0)
  {
    assert a[head..] + a[..0] == a[head..tail];
  }

  lemma StoredPush<T>(a: seq<T>, head: nat, tail: nat, x: T)
    requires head < |a| && tail < |a|
    ensures head != tail + 1 ==> Stored(a[tail := x], head, tail + 1) == Stored(a, head, tail) + [x]
    ensures head == tail + 1 ==> a[tail := x][head..] + a[tail := x][..head] == Stored(a, head, tail) + [x]
  {
    var b := a[tail := x];
    if tail >= head {
      assert b[head..tail] == a[head..tail];
    } else {
      assert b[head..] == a[head..] && b[..tail] == a[..tail];
      assert b[..tail + 1] == a[..tail] + [x];
      assert a[head..] + (a[..tail] + [x]) == a[head..] + a[..tail] + [x];
    }
  }

  lemma StoredPop<T>(a: seq<T>, head: nat, tail: nat)
    requires head < |a| && tail < |a| && head != tail
    ensures Stored(a, head, tail) != [] && Stored(a, Next(head, |a|), tail) == Stored(a, head, tail)[1..]
  {
  }

  /** The slot array after push_back with no room left: everything but the oldest. */
  lemma StoredOverrun<T>(a: seq<T>, head: nat, tail: nat, x: T)
    requires head < |a| && tail < |a| && Next(tail, |a|) == head
    ensures Stored(a[tail := x], Next(head, |a|), head) == (Stored(a, head, tail) + [x])[1..]
  {
    var b, m := a[tail := x], |a|;
    StoredPush(a, head, tail, x);
    if tail + 1 == m {
      assert head == 0;
      assert b == Stored(a, 0, tail) + [x];
      assert m > 1 ==> Stored(b, 1, 0) == b[1..] + b[..0];
    } else {
      assert b[head..] + b[..head] == Stored(a, head, tail) + [x];
      if head + 1 < m {
        assert Stored(b, head + 1, head) == (b[head..] + b[..head])[1..];
      } else {
        assert Stored(b, 0, head) == (b[head..] + b[..head])[1..];
      }
    }
  }

  lemma StoredFits<T>(a: seq<T>, head: nat, tail: nat, x: T)
    requires head < |a| && tail < |a| && Next(tail, |a|) != head
    ensures Stored(a[tail := x], head, Next(tail, |a|)) == Stored(a, head, tail) + [x]
  {
    StoredPush(a, head, tail, x);
    if tail + 1 == |a| {
      StoredWrap(a[tail := x], head, tail + 1);
    }
  }

  /** What a push does to the slot array, with room left and without. */
  lemma PushStored<T>(a: seq<T>, head: nat, tail: nat, x: T, overruns: nat)
    requires head < |a| && tail < |a|
    ensures Push(Bounded(|a| - 1, Stored(a, head, tail), overruns), x) ==
            if Next(tail, |a|) == head
            then Bounded(|a| - 1, Stored(a[tail := x], Next(head, |a|), head), overruns + 1)
            else Bounded(|a| - 1, Stored(a[tail := x], head, Next(tail, |a|)), overruns)
  {
    if Next(tail, |a|) == head {
      StoredOverrun(a, head, tail, x);
    } else {
      StoredFits(a, head, tail, x);
    }
  }

  /** The slot after k, around the end of the array. */
  method Successor(k: nat, m: nat) returns (r: nat)
    requires k < m
    ensures r == Next(k, m) && r < m
  {
    ModSum(k, 1, m);
    return (k + 1) % m;
  }

  class CircularQ<T(0)> {
    var maxItems: nat
    var head: nat
    var tail: nat
    var overrunCounter: nat
    var v: array<T>

    ghost predicate Valid()
      reads this
    {
      && v.Length == maxItems
      && (maxItems == 0 ==> head == 0 && tail == 0)
      && (maxItems > 0 ==> head < maxItems && tail < maxItems)
    }

    /** The stored items, oldest first, around the end of the array. */
    ghost function Items(): seq<T>
      reads this, v
      requires Valid()
    {
      Stored(v[..], head, tail)
    }

    ghost function View(): (b: Bounded<T>)
      reads this, v
      requires Valid()
      ensures |b.items| <= if b.capacity < 0 then 0 else b.capacity
    {
      Bounded(maxItems as int - 1, Items(), overrunCounter)
    }

    constructor Disabled()
      ensures Valid() && View() == Bounded(-1, [], 0) && fresh(v)
    {
      maxItems, head, tail, overrunCounter := 0, 0, 0, 0;
      v := new T[0];
    }

    /** One slot more than asked for: it marks the full queue. */
    constructor (capacity: nat)
      ensures Valid() && View() == Bounded(capacity, [], 0) && fresh(v)
    {
      maxItems, head, tail, overrunCounter := capacity + 1, 0, 0, 0;
      v := new T[capacity + 1];
    }

    /** The move constructor leaves the other queue disabled. */
    constructor Move(other: CircularQ<T>)
      requires other.Valid()
      modifies other
      ensures Valid() && View() == old(other.View()) && v == old(other.v)
      ensures other.Valid() && other.View() == Bounded(-1, [], 0) && fresh(other.v)
    {
      maxItems, head, tail, overrunCounter := other.maxItems, other.head, other.tail, other.overrunCounter;
      v := other.v;
      new;
      other.maxItems, other.head, other.tail, other.overrunCounter := 0, 0, 0, 0;
      other.v := new T[0];
    }

    method PushBack(item: T)
      requires Valid()
      modifies this, v
      ensures Valid() && v == old(v)
      ensures View() == Push(old(View()), item)
    {
      if maxItems > 0 {
        PushStored(v[..], head, tail, item, overrunCounter);
        hide Push, Stored, Next;
        ghost var a := v[..];
        v[tail] := item;
        assert v[..] == a[tail := item];
        tail := Successor(tail, maxItems);
        if tail == head {
          head := Successor(head, maxItems);
          overrunCounter := overrunCounter + 1;
        }
      }
    }

    method Front() returns (x: T)
      requires Valid() && Items() != []
      ensures x == Items()[0]
    {
      return v[head];
    }

    method Size() returns (n: nat)
      requires Valid()
      ensures n == |Items()|
    {
      if tail >= head {
        return tail - head;
      } else {
        return maxItems - (head - tail);
      }
    }

    method At(i: nat) returns (x: T)
      requires Valid() && i < |Items()|
      ensures x == Items()[i]
    {
      ModSum(head, i, maxItems);
      return v[(head + i) % maxItems];
    }

    method PopFront()
      requires Valid() && Items() != []
      modifies this
      ensures Valid() && v == old(v)
      ensures View() == Pop(old(View()))
    {
      StoredPop(v[..], head, tail);
      head := Successor(head, maxItems);
    }

    method Empty() returns (e: bool)
      requires Valid()
      ensures e <==> Items() == []
    {
      return tail == head;
    }

    method Full() returns (f: bool)
      requires Valid()
      ensures f <==> |Items()| == View().capacity
    {
      if maxItems > 0 {
        ModSum(tail, 1, maxItems);
        return (tail + 1) % maxItems == head;
      }
      return false;
    }

    method ResetOverrunCounter()
      requires Valid()
      modifies `overrunCounter
      ensures Valid() && View() == old(View()).(overruns := 0)
    {
      overrunCounter := 0;
    }
  }

  /** ringbuffer_sink::last_raw: the most recent items, all of them for lim 0. */
  method LastRaw<T(0)>(q: CircularQ<T>, lim: nat) returns (ret: seq<T>)
    requires q.Valid()
    ensures ret == if lim > 0 then LastOf(q.Items(), lim) else q.Items()
  {
    ghost var items := q.Items();
    var available := q.Size();
    var n := if lim > 0 then (if lim < available then lim else available) else available;
    ret := [];
    for i := available - n to available
      invariant ret == items[available - n..i]
    {
      var x := q.At(i);
      ret := ret + [x];
    }
  }

  // Histories

  function PushAll<T>(b: Bounded<T>, xs: seq<T>): Bounded<T> {
    if xs == [] then b else Push(PushAll(b, xs[..|xs| - 1]), xs[|xs| - 1])
  }

  lemma LastOfSnoc<T>(s: seq<T>, x: T, n: nat)
    ensures |LastOf(s, n)| == if |s| <= n then |s| else n
    ensures LastOf(s + [x], n) == if |s| < n then LastOf(s, n) + [x] else (LastOf(s, n) + [x])[1..]
  {
    if |s| >= n {
      assert (s + [x])[|s| + 1 - n..] == (s[|s| - n..] + [x])[1..];
    }
  }

  /** What a sink of the given capacity holds of everything ever logged to it: the last capacity items;
      the overrun counter counts the rest. */
  lemma {:induction false} PushAllKeepsLast<T>(capacity: nat, xs: seq<T>)
    ensures PushAll(Bounded(capacity, [], 0), xs) ==
            Bounded(capacity, LastOf(xs, capacity), if |xs| <= capacity then 0 else |xs| - capacity)
  {
    if xs != [] {
      var init, x := xs[..|xs| - 1], xs[|xs| - 1];
      PushAllKeepsLast(capacity, init);
      LastOfSnoc(init, x, capacity);
      assert init + [x] == xs;
    }
  }

  /** A disabled queue takes nothing and counts nothing. */
  lemma {:induction false} PushAllDisabled<T>(xs: seq<T>)
    ensures PushAll(Bounded(-1, [], 0), xs) == Bounded(-1, [], 0)
  {
    if xs != [] {
      PushAllDisabled(xs[..|xs| - 1]);
    }
  }
}
