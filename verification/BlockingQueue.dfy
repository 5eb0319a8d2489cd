/** include/spdlog/details/mpmc_blocking_q.h: a bounded queue shared by any number of threads.
    Each critical section is one atomic action; a wait on a condition variable is a guard. */
module BlockingQueue {
  import opened Ring

  /** between: threads that have left the critical section of enqueue_if_have_room empty-handed
      and have not yet counted their discarded message. */
  datatype Queue<T> = Queue(buffer: Bounded<T>, discards: nat, between: nat)

  datatype Action<T> =
    | Enqueue(item: T)            // guarded: waits for room
    | EnqueueNowait(item: T)      // may overrun the oldest item
    | EnqueueIfHaveRoom(item: T)  // critical section
    | CountDiscard                // ++discard_counter_, outside the lock
    | Dequeue                     // guarded: waits for an item

  predicate Full<T>(q: Queue<T>) {
    |q.buffer.items| == q.buffer.capacity
  }

  ghost predicate Enabled<T>(q: Queue<T>, a: Action<T>) {
    match a
    case Enqueue(_) => !Full(q)
    case Dequeue => q.buffer.items != []
    case CountDiscard => q.between > 0
    case _ => true
  }

  ghost function Step<T>(q: Queue<T>, a: Action<T>): Queue<T>
    requires Enabled(q, a)
  {
    match a
    case Enqueue(x) => q.(buffer := Push(q.buffer, x))
    case EnqueueNowait(x) => q.(buffer := Push(q.buffer, x))
    case EnqueueIfHaveRoom(x) =>
      if Full(q) then q.(between := q.between + 1) else q.(buffer := Push(q.buffer, x))
    case CountDiscard => q.(discards := q.discards + 1, between := q.between - 1)
    case Dequeue => q.(buffer := Pop(q.buffer))
  }

  class MpmcBlockingQueue<T(0)> {
    var q: CircularQ<T>
    var discardCounter: nat
    ghost var between: nat

    ghost predicate Valid()
      reads this, q
    {
      q.Valid() && q.maxItems > 0
    }

    ghost function View(): Queue<T>
      reads this, q, q.v
      requires Valid()
    {
      Queue(q.View(), discardCounter, between)
    }

    constructor (maxItems: nat)
      ensures Valid() && View() == Queue(Bounded(maxItems, [], 0), 0, 0) && fresh(q) && fresh(q.v)
    {
      q := new CircularQ<T>(maxItems);
      discardCounter, between := 0, 0;
    }

    /** One evaluation of the wait predicate: either the item goes in, or the thread goes on waiting. */
    method Enqueue(item: T) returns (done: bool)
      requires Valid()
      modifies q, q.v
      ensures Valid() && q == old(q) && q.v == old(q.v)
      ensures done <==> Enabled(old(View()), Action.Enqueue(item))
      ensures done <==> |old(q.Items())| < q.View().capacity
      ensures View() == if done then Step(old(View()), Action.Enqueue(item)) else old(View())
    {
      var full := q.Full();
      if full {
        return false;
      }
      q.PushBack(item);
      return true;
    }

    method EnqueueNowait(item: T)
      requires Valid()
      modifies q, q.v
      ensures Valid() && q == old(q) && q.v == old(q.v)
      ensures View() == Step(old(View()), Action.EnqueueNowait(item))
    {
      q.PushBack(item);
    }

    /** The locked part; when it fails the same thread calls CountDiscard later. */
    method EnqueueIfHaveRoom(item: T) returns (pushed: bool)
      requires Valid()
      modifies q, q.v, `between
      ensures Valid() && q == old(q) && q.v == old(q.v)
      ensures View() == Step(old(View()), Action.EnqueueIfHaveRoom(item))
      ensures pushed <==> |old(q.Items())| < q.View().capacity
    {
      var full := q.Full();
      pushed := false;
      if !full {
        q.PushBack(item);
        pushed := true;
      }
      if !pushed {
        between := between + 1;
      }
    }

    method CountDiscard()
      requires Valid() && between > 0
      modifies `discardCounter, `between
      ensures Valid() && View() == Step(old(View()), Action.CountDiscard)
    {
      discardCounter := discardCounter + 1;
      between := between - 1;
    }

    method Dequeue() returns (done: bool, item: T)
      requires Valid()
      modifies q
      ensures Valid() && q == old(q) && q.v == old(q.v)
      ensures done <==> Enabled(old(View()), Action.Dequeue)
      ensures done <==> old(q.Items()) != []
      ensures View() == if done then Step(old(View()), Action.Dequeue) else old(View())
      ensures done ==> item == old(View()).buffer.items[0]
    {
      var empty := q.Empty();
      if empty {
        item := *;
        return false, item;
      }
      item := q.Front();
      q.PopFront();
      return true, item;
    }
  }

  // Histories

  /** What became of an item that is no longer stored. */
  datatype Fate = Popped | Overrun

  /** A queue and its whole past: items accepted in order, items popped in order, fates of the departed. */
  datatype Log<T> = Log(q: Queue<T>, pushed: seq<T>, popped: seq<T>, fates: seq<Fate>, attempts: nat, accepted: nat)

  function Start<T>(capacity: nat): Log<T> {
    Log(Queue(Bounded(capacity, [], 0), 0, 0), [], [], [], 0, 0)
  }

  /** Only an unguarded push into a full queue overruns. */
  ghost predicate Overruns<T>(q: Queue<T>, a: Action<T>) {
    a.EnqueueNowait? && Full(q)
  }

  ghost function Record<T>(l: Log<T>, a: Action<T>): Log<T>
    requires Enabled(l.q, a)
  {
    var q := Step(l.q, a);
    match a
    case Enqueue(x) => l.(q := q, pushed := l.pushed + [x])
    case EnqueueNowait(x) =>
      if Full(l.q) then l.(q := q, pushed := l.pushed + [x], fates := l.fates + [Overrun])
      else l.(q := q, pushed := l.pushed + [x])
    case EnqueueIfHaveRoom(x) =>
      if Full(l.q) then l.(q := q, attempts := l.attempts + 1)
      else l.(q := q, pushed := l.pushed + [x], attempts := l.attempts + 1, accepted := l.accepted + 1)
    case CountDiscard => l.(q := q)
    case Dequeue => l.(q := q, popped := l.popped + [l.q.buffer.items[0]], fates := l.fates + [Popped])
  }

  function Survivors<T>(xs: seq<T>, fates: seq<Fate>): seq<T>
    requires |xs| == |fates|
  {
    if xs == [] then []
    else
      var n := |xs| - 1;
      Survivors(xs[..n], fates[..n]) + (if fates[n].Popped? then [xs[n]] else [])
  }

  function Lost(fates: seq<Fate>): nat {
    if fates == [] then 0
    else Lost(fates[..|fates| - 1]) + (if fates[|fates| - 1].Overrun? then 1 else 0)
  }

  /** The departed are the oldest accepted items; those of them not overrun were popped, in the order of acceptance;
      the rest is stored. Every refused discard-new attempt is counted or about to be. */
  ghost predicate Conserved<T>(l: Log<T>) {
    && l.q.buffer.capacity >= |l.q.buffer.items|
    && |l.fates| <= |l.pushed|
    && l.pushed[|l.fates|..] == l.q.buffer.items
    && l.popped == Survivors(l.pushed[..|l.fates|], l.fates)
    && l.q.buffer.overruns == Lost(l.fates)
    && l.attempts == l.accepted + l.q.discards + l.q.between
  }

  lemma SurvivorsSnoc<T>(xs: seq<T>, fates: seq<Fate>, x: T, f: Fate)
    requires |xs| == |fates|
    ensures Survivors(xs + [x], fates + [f]) == Survivors(xs, fates) + (if f.Popped? then [x] else [])
    ensures Lost(fates + [f]) == Lost(fates) + (if f.Overrun? then 1 else 0)
  {
    assert (xs + [x])[..|xs|] == xs && (fates + [f])[..|xs|] == fates;
  }

  /** The oldest of pushed ++ tail leaves. */
  lemma Departs<T>(pushed: seq<T>, k: nat, all: seq<T>)
    requires k < |all| && pushed <= all && k <= |pushed|
    ensures all[..k + 1] == all[..k] + [all[k]] && all[k..][1..] == all[k + 1..] && all[..k] == pushed[..k]
  {
  }

  /** The oldest stored item leaves the (possibly just extended) queue. */
  lemma DepartureConserved<T>(l: Log<T>, pushed: seq<T>, f: Fate)
    requires Conserved(l) && |l.fates| < |pushed| && l.pushed <= pushed
    ensures var k := |l.fates|; var fates := l.fates + [f];
            && pushed[..k + 1][..k] == l.pushed[..k] && pushed[|fates|..] == pushed[k..][1..]
            && Survivors(pushed[..|fates|], fates) == l.popped + (if f.Popped? then [pushed[k]] else [])
            && Lost(fates) == l.q.buffer.overruns + (if f.Overrun? then 1 else 0)
  {
    var k := |l.fates|;
    Departs(l.pushed, k, pushed);
    SurvivorsSnoc(l.pushed[..k], l.fates, pushed[k], f);
  }

  lemma Kept<T>(l: Log<T>, x: T)
    requires |l.fates| <= |l.pushed| && l.pushed[|l.fates|..] == l.q.buffer.items
    ensures (l.pushed + [x])[|l.fates|..] == l.q.buffer.items + [x]
    ensures (l.pushed + [x])[..|l.fates|] == l.pushed[..|l.fates|]
  {
  }

  lemma AcceptConserved<T>(l: Log<T>, x: T, q: Queue<T>)
    requires Conserved(l) && !Full(l.q) && q == l.q.(buffer := Push(l.q.buffer, x))
    ensures Conserved(l.(q := q, pushed := l.pushed + [x]))
  {
    Kept(l, x);
  }

  lemma OverrunConserved<T>(l: Log<T>, x: T)
    requires Conserved(l) && Full(l.q)
    ensures Conserved(Record(l, Action.EnqueueNowait(x)))
  {
    Kept(l, x);
    DepartureConserved(l, l.pushed + [x], Overrun);
    assert l.popped + [] == l.popped;
  }

  lemma DequeueConserved<T>(l: Log<T>)
    requires Conserved(l) && l.q.buffer.items != []
    ensures Conserved(Record(l, Action.Dequeue))
  {
    DepartureConserved(l, l.pushed, Popped);
    assert l.q.buffer.items[0] == l.pushed[|l.fates|];
  }

  /** Every action keeps the books; only an unguarded push into a full queue loses an item. */
  lemma RecordConserved<T>(l: Log<T>, a: Action<T>)
    requires Conserved(l) && Enabled(l.q, a)
    ensures Conserved(Record(l, a))
    ensures Record(l, a).q.buffer.overruns == l.q.buffer.overruns + (if Overruns(l.q, a) then 1 else 0)
  {
    match a
    case Enqueue(x) => AcceptConserved(l, x, Step(l.q, a));
    case EnqueueNowait(x) =>
      if Full(l.q) { OverrunConserved(l, x); } else { AcceptConserved(l, x, Step(l.q, a)); }
    case EnqueueIfHaveRoom(x) =>
      if !Full(l.q) { AcceptConserved(l, x, Step(l.q, a)); }
    case CountDiscard =>
    case Dequeue => DequeueConserved(l);
  }

  /** Any interleaving of producers and consumers. */
  ghost predicate IsHistory<T>(capacity: nat, logs: seq<Log<T>>, actions: seq<Action<T>>) {
    && |logs| == |actions| + 1
    && logs[0] == Start(capacity)
    && forall i | 0 <= i < |actions| :: Enabled(logs[i].q, actions[i]) && logs[i + 1] == Record(logs[i], actions[i])
  }

  lemma {:induction false} AlwaysConserved<T>(capacity: nat, logs: seq<Log<T>>, actions: seq<Action<T>>, n: nat)
    requires IsHistory(capacity, logs, actions) && n <= |actions|
    ensures Conserved(logs[n])
    ensures (forall i | 0 <= i < n :: !Overruns(logs[i].q, actions[i])) ==> logs[n].q.buffer.overruns == 0
  {
    if n > 0 {
      AlwaysConserved(capacity, logs, actions, n - 1);
      RecordConserved(logs[n - 1], actions[n - 1]);
    }
  }

  lemma {:induction false} SurvivorCount<T>(xs: seq<T>, fates: seq<Fate>)
    requires |xs| == |fates|
    ensures |Survivors(xs, fates)| + Lost(fates) == |xs|
  {
    if xs != [] {
      SurvivorCount(xs[..|xs| - 1], fates[..|xs| - 1]);
    }
  }

  /** Accepted = popped + stored + overrun, in every reachable state. */
  lemma CountsAgree<T>(capacity: nat, logs: seq<Log<T>>, actions: seq<Action<T>>, n: nat)
    requires IsHistory(capacity, logs, actions) && n <= |actions|
    ensures var l := logs[n]; |l.pushed| == |l.popped| + |l.q.buffer.items| + l.q.buffer.overruns
  {
    AlwaysConserved(capacity, logs, actions, n);
    SurvivorCount(logs[n].pushed[..|logs[n].fates|], logs[n].fates);
  }
}
