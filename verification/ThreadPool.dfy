/** include/spdlog/details/thread_pool-inl.h: workers that drain the queue, and the destructor that stops them by
    posting one terminate message per worker. A step is one atomic action of one thread. */
module ThreadPool {
  import opened Ring
  import opened BlockingQueue

  datatype Msg = LogMsg(id: nat) | FlushMsg(id: nat) | Terminate

  datatype Option<T> = None | Some(value: T)

  datatype Worker = Waiting | Processing(msg: Msg) | Stopped

  /** posted, joined: progress of the destructor's two loops. */
  datatype Pool = Pool(
    log: Log<Msg>,
    workers: seq<Worker>,
    destroying: bool,
    posted: nat,
    joined: nat,
    handed: seq<(nat, Msg)>)

  datatype Step =
    | Post(action: Action<Msg>)  // a producer's post_log or post_flush, under any of the three policies
    | CountDiscard               // a producer's late ++discard_counter_
    | BeginDestroy
    | PostTerminate              // the destructor's loop, policy block
    | Take(w: nat)               // dequeue by worker w
    | Finish(w: nat)             // process_next_msg_ returns
    | Join                       // t.join() on the next thread

  /** The constructor rejects 0 threads and more than 1000. */
  function Start(capacity: nat, n: nat): Pool {
    Pool(BlockingQueue.Start(capacity), seq(n, _ => Waiting), false, 0, 0, [])
  }

  function Items(p: Pool): seq<Msg> {
    p.log.q.buffer.items
  }

  /** post_log and post_flush; nobody but the destructor posts Terminate. */
  predicate IsPost(a: Action<Msg>) {
    (a.Enqueue? || a.EnqueueNowait? || a.EnqueueIfHaveRoom?) && !a.item.Terminate?
  }

  ghost predicate Enabled(p: Pool, s: Step) {
    match s
    case Post(a) => !p.destroying && IsPost(a) && BlockingQueue.Enabled(p.log.q, a)
    case CountDiscard => p.log.q.between > 0
    case BeginDestroy => !p.destroying
    case PostTerminate => p.destroying && p.posted < |p.workers| && !Full(p.log.q)
    case Take(w) => w < |p.workers| && p.workers[w].Waiting? && Items(p) != []
    case Finish(w) => w < |p.workers| && p.workers[w].Processing?
    case Join => p.destroying && p.posted == |p.workers| && p.joined < |p.workers| && p.workers[p.joined].Stopped?
  }

  ghost function Next(p: Pool, s: Step): Pool
    requires Enabled(p, s)
  {
    match s
    case Post(a) => p.(log := Record(p.log, a))
    case CountDiscard => p.(log := Record(p.log, Action.CountDiscard))
    case BeginDestroy => p.(destroying := true)
    case PostTerminate => p.(log := Record(p.log, Action.Enqueue(Terminate)), posted := p.posted + 1)
    case Take(w) =>
      p.(log := Record(p.log, Action.Dequeue),
         workers := p.workers[w := Processing(Items(p)[0])],
         handed := p.handed + [(w, Items(p)[0])])
    case Finish(w) =>
      p.(workers := p.workers[w := if p.workers[w].msg.Terminate? then Stopped else Waiting])
    case Join => p.(joined := p.joined + 1)
  }

  // Counting

  function Terminates(ms: seq<Msg>): nat {
    if ms == [] then 0 else (if ms[0].Terminate? then 1 else 0) + Terminates(ms[1..])
  }

  /** A worker that has not been handed its terminate message. */
  predicate IsLive(w: Worker) {
    w.Waiting? || (w.Processing? && !w.msg.Terminate?)
  }

  function Live(ws: seq<Worker>): nat {
    if ws == [] then 0 else (if IsLive(ws[0]) then 1 else 0) + Live(ws[1..])
  }

  function Busy(ws: seq<Worker>): nat {
    if ws == [] then 0 else (if ws[0].Processing? then 1 else 0) + Busy(ws[1..])
  }

  lemma {:induction false} TerminatesSnoc(ms: seq<Msg>, m: Msg)
    ensures Terminates(ms + [m]) == Terminates(ms) + (if m.Terminate? then 1 else 0)
  {
    if ms == [] {
      assert [m][1..] == [];
    } else {
      assert (ms + [m])[1..] == ms[1..] + [m];
      TerminatesSnoc(ms[1..], m);
    }
  }

  lemma {:induction false} CountUpdate(ws: seq<Worker>, i: nat, w: Worker)
    requires i < |ws|
    ensures Live(ws[i := w]) == Live(ws) - (if IsLive(ws[i]) then 1 else 0) + (if IsLive(w) then 1 else 0)
    ensures Busy(ws[i := w]) == Busy(ws) - (if ws[i].Processing? then 1 else 0) + (if w.Processing? then 1 else 0)
  {
    if i == 0 {
      assert ws[0 := w][1..] == ws[1..];
    } else {
      assert ws[i := w][1..] == ws[1..][i - 1 := w];
      CountUpdate(ws[1..], i - 1, w);
    }
  }

  lemma {:induction false} LiveWitness(ws: seq<Worker>) returns (i: nat)
    requires Live(ws) > 0
    ensures i < |ws| && IsLive(ws[i])
  {
    if IsLive(ws[0]) {
      i := 0;
    } else {
      var j := LiveWitness(ws[1..]);
      i := j + 1;
    }
  }

  lemma {:induction false} LiveAt(ws: seq<Worker>, i: nat)
    requires i < |ws| && IsLive(ws[i])
    ensures Live(ws) > 0
  {
    if i > 0 {
      LiveAt(ws[1..], i - 1);
    }
  }

  lemma {:induction false} AllWaiting(n: nat)
    ensures Live(seq(n, _ => Waiting)) == n && Busy(seq(n, _ => Waiting)) == 0
  {
    if n > 0 {
      assert seq(n, _ => Waiting)[1..] == seq(n - 1, _ => Waiting);
      AllWaiting(n - 1);
    }
  }

  /** Log messages first, terminate messages last. */
  ghost predicate WorkFirst(ms: seq<Msg>) {
    forall i, j | 0 <= i < j < |ms| :: ms[i].Terminate? ==> ms[j].Terminate?
  }

  ghost predicate NoWork(ms: seq<Msg>) {
    forall i | 0 <= i < |ms| :: ms[i].Terminate?
  }

  lemma {:induction false} NoTerminates(ms: seq<Msg>)
    ensures Terminates(ms) == 0 <==> forall m | m in ms :: !m.Terminate?
  {
    if ms != [] {
      NoTerminates(ms[1..]);
      assert ms == [ms[0]] + ms[1..];
    }
  }

  lemma OnlyTerminates(ms: seq<Msg>)
    requires NoWork(ms) && Terminates(ms) == 0
    ensures ms == []
  {
  }

  function Messages(handed: seq<(nat, Msg)>): seq<Msg> {
    seq(|handed|, i requires 0 <= i < |handed| => handed[i].1)
  }

  /** What a worker was handed last. */
  function LastHanded(handed: seq<(nat, Msg)>, w: nat): Option<Msg> {
    if handed == [] then None
    else if handed[|handed| - 1].0 == w then Some(handed[|handed| - 1].1)
    else LastHanded(handed[..|handed| - 1], w)
  }

  /** A worker works on what it was handed last, goes on after any message but a terminate, and stops after that. */
  ghost predicate WorkerFits(w: Worker, last: Option<Msg>) {
    match w
    case Waiting => last == None || !last.value.Terminate?
    case Processing(m) => last == Some(m)
    case Stopped => last == Some(Terminate)
  }

  ghost predicate WorkersFit(p: Pool) {
    forall w | 0 <= w < |p.workers| :: WorkerFits(p.workers[w], LastHanded(p.handed, w))
  }

  lemma HandedSnoc(handed: seq<(nat, Msg)>, v: nat, m: Msg, w: nat)
    ensures LastHanded(handed + [(v, m)], w) == if v == w then Some(m) else LastHanded(handed, w)
  {
    assert (handed + [(v, m)])[..|handed|] == handed;
  }

  lemma WorkersFitNext(p: Pool, s: Step)
    requires WorkersFit(p) && Enabled(p, s)
    ensures WorkersFit(Next(p, s))
  {
    hide LastHanded, Record;
    var p' := Next(p, s);
    forall w | 0 <= w < |p'.workers| ensures WorkerFits(p'.workers[w], LastHanded(p'.handed, w)) {
      assert WorkerFits(p.workers[w], LastHanded(p.handed, w));
      if s.Take? {
        HandedSnoc(p.handed, s.w, Items(p)[0], w);
      }
    }
  }

  /** What every step keeps. */
  ghost predicate Inv(p: Pool, n: nat) {
    && |p.workers| == n
    && Conserved(p.log)
    && p.posted <= n && p.joined <= n
    && (!p.destroying ==> p.posted == 0)
    && (p.joined > 0 ==> p.posted == n)
    && (forall i | 0 <= i < p.joined :: p.workers[i].Stopped?)
    // live workers = terminates still to be posted + terminates queued
    && Live(p.workers) == n - p.posted + Terminates(Items(p))
    && WorkFirst(Items(p))
    // once a terminate has been taken no other work is queued
    && (p.posted > Terminates(Items(p)) ==> NoWork(Items(p)))
    && Messages(p.handed) == p.log.popped
    && WorkersFit(p)
  }

  lemma StartOk(capacity: nat, n: nat)
    ensures Inv(Start(capacity, n), n)
  {
    AllWaiting(n);
  }

  lemma {:induction false} LiveBound(ws: seq<Worker>)
    ensures Live(ws) <= |ws|
  {
    if ws != [] {
      LiveBound(ws[1..]);
    }
  }

  lemma PostItems(l: Log<Msg>, a: Action<Msg>, m: Msg)
    requires Conserved(l) && BlockingQueue.Enabled(l.q, a) && IsPost(a) && m in Record(l, a).q.buffer.items
    ensures m in l.q.buffer.items || m == a.item
  {
  }

  lemma PostOk(p: Pool, n: nat, a: Action<Msg>)
    requires Inv(p, n) && Enabled(p, Post(a))
    ensures Inv(Next(p, Post(a)), n)
  {
    RecordConserved(p.log, a);
    LiveBound(p.workers);
    NoTerminates(Items(p));
    var ms := Items(Next(p, Post(a)));
    forall m | m in ms ensures !m.Terminate? {
      PostItems(p.log, a, m);
    }
    NoTerminates(ms);
  }

  lemma PostTerminateOk(p: Pool, n: nat)
    requires Inv(p, n) && Enabled(p, PostTerminate)
    ensures Inv(Next(p, PostTerminate), n)
  {
    RecordConserved(p.log, Action.Enqueue(Terminate));
    TerminatesSnoc(Items(p), Terminate);
    assert Items(Next(p, PostTerminate)) == Items(p) + [Terminate];
  }

  lemma TakeOk(p: Pool, n: nat, w: nat)
    requires Inv(p, n) && Enabled(p, Take(w))
    ensures Inv(Next(p, Take(w)), n)
  {
    var ms, p' := Items(p), Next(p, Take(w));
    RecordConserved(p.log, Action.Dequeue);
    CountUpdate(p.workers, w, Processing(ms[0]));
    assert Items(p') == ms[1..];
    assert Messages(p'.handed) == Messages(p.handed) + [ms[0]];
    if p'.posted > Terminates(Items(p')) && ms[0].Terminate? {
      assert forall i | 0 <= i < |ms[1..]| :: ms[1..][i] == ms[i + 1];
    }
  }

  lemma FinishOk(p: Pool, n: nat, w: nat)
    requires Inv(p, n) && Enabled(p, Finish(w))
    ensures Inv(Next(p, Finish(w)), n)
  {
    CountUpdate(p.workers, w, if p.workers[w].msg.Terminate? then Stopped else Waiting);
  }

  lemma NextOk(p: Pool, n: nat, s: Step)
    requires Inv(p, n) && Enabled(p, s)
    ensures Inv(Next(p, s), n)
  {
    WorkersFitNext(p, s);
    match s
    case Post(a) => PostOk(p, n, a);
    case CountDiscard => RecordConserved(p.log, Action.CountDiscard);
    case BeginDestroy =>
    case PostTerminate => PostTerminateOk(p, n);
    case Take(w) => TakeOk(p, n, w);
    case Finish(w) => FinishOk(p, n, w);
    case Join =>
  }

  // Runs

  ghost predicate IsRun(capacity: nat, n: nat, pools: seq<Pool>, steps: seq<Step>) {
    && |pools| == |steps| + 1
    && pools[0] == Start(capacity, n)
    && forall i | 0 <= i < |steps| :: Enabled(pools[i], steps[i]) && pools[i + 1] == Next(pools[i], steps[i])
  }

  lemma {:induction false} RunOk(capacity: nat, n: nat, pools: seq<Pool>, steps: seq<Step>, k: nat)
    requires IsRun(capacity, n, pools, steps) && k <= |steps|
    ensures Inv(pools[k], n) && pools[k].log.q.buffer.capacity == capacity
  {
    if k == 0 {
      StartOk(capacity, n);
    } else {
      RunOk(capacity, n, pools, steps, k - 1);
      NextOk(pools[k - 1], n, steps[k - 1]);
    }
  }

  /** In every interleaving, live workers are exactly matched by terminates to come. */
  lemma LiveWorkersMatched(capacity: nat, n: nat, pools: seq<Pool>, steps: seq<Step>, k: nat)
    requires IsRun(capacity, n, pools, steps) && k <= |steps|
    ensures Live(pools[k].workers) == n - pools[k].posted + Terminates(Items(pools[k]))
  {
    RunOk(capacity, n, pools, steps, k);
  }

  // What the pool does to its queue

  /** Before the destruction a post waits only under block, and then exactly while the queue is full. */
  lemma PostWaitsIff(p: Pool, n: nat, m: Msg)
    requires Inv(p, n) && !p.destroying && !m.Terminate?
    ensures Enabled(p, Post(Action.Enqueue(m))) <==> |Items(p)| < p.log.q.buffer.capacity
    ensures Enabled(p, Post(Action.EnqueueNowait(m))) && Enabled(p, Post(Action.EnqueueIfHaveRoom(m)))
  {
    assert |Items(p)| <= p.log.q.buffer.capacity;
  }

  /** post_async_msg_ hands the message to the queue under the policy of the caller; the destructor blocks. */
  function QueueActions(steps: seq<Step>): seq<Action<Msg>> {
    if steps == [] then []
    else
      QueueActions(steps[..|steps| - 1]) +
      match steps[|steps| - 1]
      case Post(a) => [a]
      case CountDiscard => [Action.CountDiscard]
      case PostTerminate => [Action.Enqueue(Terminate)]
      case Take(_) => [Action.Dequeue]
      case _ => []
  }

  lemma HistoryExtends(capacity: nat, logs: seq<Log<Msg>>, actions: seq<Action<Msg>>, a: Action<Msg>)
    requires IsHistory(capacity, logs, actions) && BlockingQueue.Enabled(logs[|actions|].q, a)
    ensures IsHistory(capacity, logs + [Record(logs[|actions|], a)], actions + [a])
  {
    hide BlockingQueue.Enabled, Record;
  }

  /** In any run the pool's queue has gone through exactly the actions of the steps: everything proved about the queue's
      histories holds of it. */
  lemma {:induction false} QueueHistory(capacity: nat, n: nat, pools: seq<Pool>, steps: seq<Step>, k: nat)
    returns (logs: seq<Log<Msg>>)
    requires IsRun(capacity, n, pools, steps) && k <= |steps|
    ensures IsHistory(capacity, logs, QueueActions(steps[..k]))
    ensures logs[|QueueActions(steps[..k])|] == pools[k].log
  {
    if k == 0 {
      logs := [BlockingQueue.Start(capacity)];
    } else {
      logs := QueueHistory(capacity, n, pools, steps, k - 1);
      var s, l := steps[k - 1], pools[k - 1].log;
      assert steps[..k][..k - 1] == steps[..k - 1];
      var before, now := QueueActions(steps[..k - 1]), QueueActions(steps[..k]);
      if now == before {
      } else {
        hide IsHistory, Record;
        var a := now[|before|];
        assert now == before + [a];
        HistoryExtends(capacity, logs, before, a);
        logs := logs + [Record(l, a)];
      }
    }
  }

  /** The message the queue accepts in one step: any post, except one under discard_new that meets a full queue. */
  function Accepted(p: Pool, s: Step): seq<Msg> {
    match s
    case Post(EnqueueIfHaveRoom(m)) => if |Items(p)| < p.log.q.buffer.capacity then [m] else []
    case Post(Enqueue(m)) => [m]
    case Post(EnqueueNowait(m)) => [m]
    case PostTerminate => [Terminate]
    case _ => []
  }

  function Posted(pools: seq<Pool>, steps: seq<Step>, k: nat): seq<Msg>
    requires k <= |steps| && k < |pools|
  {
    if k == 0 then [] else Posted(pools, steps, k - 1) + Accepted(pools[k - 1], steps[k - 1])
  }

  lemma PushedStep(p: Pool, n: nat, s: Step)
    requires Inv(p, n) && Enabled(p, s)
    ensures Next(p, s).log.pushed == p.log.pushed + Accepted(p, s)
  {
    assert |Items(p)| <= p.log.q.buffer.capacity;
    assert p.log.pushed + [] == p.log.pushed;
    hide Inv, BlockingQueue.Step;
  }

  lemma {:induction false} PostedIsPushed(capacity: nat, n: nat, pools: seq<Pool>, steps: seq<Step>, k: nat)
    requires IsRun(capacity, n, pools, steps) && k <= |steps|
    ensures pools[k].log.pushed == Posted(pools, steps, k)
  {
    hide Inv, Enabled, Next, Accepted;
    if k > 0 {
      PostedIsPushed(capacity, n, pools, steps, k - 1);
      RunOk(capacity, n, pools, steps, k - 1);
      PushedStep(pools[k - 1], n, steps[k - 1]);
    } else {
      assert pools[0] == Start(capacity, n);
    }
  }

  /** What is stored is the end of what was posted, and what was handed to workers the rest, in posting order,
      without what was overrun. */
  lemma HandedInOrder(capacity: nat, n: nat, pools: seq<Pool>, steps: seq<Step>, k: nat)
    requires IsRun(capacity, n, pools, steps) && k <= |steps|
    ensures var p, posted := pools[k], Posted(pools, steps, k);
            && |p.log.fates| <= |posted| && posted[|p.log.fates|..] == Items(p)
            && Messages(p.handed) == Survivors(posted[..|p.log.fates|], p.log.fates)
            && p.log.q.buffer.overruns == Lost(p.log.fates)
  {
    PostedIsPushed(capacity, n, pools, steps, k);
    RunOk(capacity, n, pools, steps, k);
  }

  /** An overrun_oldest post that meets a full queue. */
  ghost predicate Displaces(capacity: nat, p: Pool, s: Step) {
    s.Post? && s.action.EnqueueNowait? && |Items(p)| == capacity
  }

  lemma {:induction false} NoneLost<T>(xs: seq<T>, fates: seq<Fate>)
    requires |xs| == |fates| && Lost(fates) == 0
    ensures Survivors(xs, fates) == xs
  {
    if xs != [] {
      NoneLost(xs[..|xs| - 1], fates[..|xs| - 1]);
    }
  }

  lemma OverrunStep(p: Pool, n: nat, s: Step)
    requires Inv(p, n) && Enabled(p, s) && p.log.q.buffer.capacity >= 0
    ensures Next(p, s).log.q.buffer.overruns ==
            p.log.q.buffer.overruns + (if Displaces(p.log.q.buffer.capacity, p, s) then 1 else 0)
  {
    match s
    case Post(a) => RecordConserved(p.log, a);
    case CountDiscard =>
    case BeginDestroy =>
    case PostTerminate => RecordConserved(p.log, Action.Enqueue(Terminate));
    case Take(w) => RecordConserved(p.log, Action.Dequeue);
    case Finish(_) =>
    case Join =>
  }

  lemma {:induction false} NothingOverrun(capacity: nat, n: nat, pools: seq<Pool>, steps: seq<Step>, k: nat)
    requires IsRun(capacity, n, pools, steps) && k <= |steps|
    requires forall i | 0 <= i < k :: !Displaces(capacity, pools[i], steps[i])
    ensures pools[k].log.q.buffer.overruns == 0
  {
    if k > 0 {
      hide Inv, Enabled, Next, Displaces;
      NothingOverrun(capacity, n, pools, steps, k - 1);
      RunOk(capacity, n, pools, steps, k - 1);
      OverrunStep(pools[k - 1], n, steps[k - 1]);
    }
  }

  lemma Lossless<T>(xs: seq<T>, fates: seq<Fate>)
    requires |fates| <= |xs| && Lost(fates) == 0
    ensures Survivors(xs[..|fates|], fates) + xs[|fates|..] == xs
  {
    hide Survivors, Lost;
    var n := |fates|;
    assert xs == xs[..n] + xs[n..];
    NoneLost(xs[..|fates|], fates);
  }

  /** As long as no overrun_oldest post has met a full queue, every message posted (and not discarded on arrival)
      has been handed to a worker or is still queued, in posting order. */
  lemma NothingLost(capacity: nat, n: nat, pools: seq<Pool>, steps: seq<Step>, k: nat)
    requires IsRun(capacity, n, pools, steps) && k <= |steps|
    requires forall i | 0 <= i < k :: !Displaces(capacity, pools[i], steps[i])
    ensures Messages(pools[k].handed) + Items(pools[k]) == Posted(pools, steps, k)
  {
    assert k < |pools|;
    hide IsRun, Displaces, Inv, Posted, Survivors, Lost, Messages;
    NothingOverrun(capacity, n, pools, steps, k);
    HandedInOrder(capacity, n, pools, steps, k);
    Lossless(Posted(pools, steps, k), pools[k].log.fates);
  }

  // Shutdown

  ghost predicate ShutDown(p: Pool) {
    p.joined == |p.workers|
  }

  /** Some thread other than a producer can move. */
  ghost predicate CanMove(p: Pool) {
    exists s :: Enabled(p, s) && (s.PostTerminate? || s.Take? || s.Finish? || s.Join?)
  }

  lemma NeverStuck(p: Pool, n: nat)
    requires Inv(p, n) && p.destroying && !ShutDown(p) && p.log.q.buffer.capacity >= 1
    ensures CanMove(p)
  {
    if p.posted < n {
      var w := LiveWitness(p.workers);
      if p.workers[w].Processing? {
        assert Enabled(p, Finish(w));
      } else if Items(p) != [] {
        assert Enabled(p, Take(w));
      } else {
        assert Enabled(p, PostTerminate);
      }
    } else {
      var w := p.joined;
      if p.workers[w].Stopped? {
        assert Enabled(p, Join);
      } else if p.workers[w].Processing? {
        assert Enabled(p, Finish(w));
      } else {
        LiveAt(p.workers, w);
        assert Enabled(p, Take(w));
      }
    }
  }

  /** With capacity 0 the blocking post of the first terminate waits for ever. */
  lemma StuckWithoutCapacity(p: Pool, n: nat)
    requires Inv(p, n) && p.log.q.buffer.capacity == 0
    ensures !Enabled(p, PostTerminate)
    ensures Items(p) == []
  {
  }

  lemma {:induction false} NothingPostedWithoutCapacity(n: nat, pools: seq<Pool>, steps: seq<Step>, k: nat)
    requires IsRun(0, n, pools, steps) && k <= |steps|
    ensures pools[k].posted == 0 && pools[k].joined == 0 && pools[k].workers == seq(n, _ => Waiting)
    ensures n > 0 && pools[k].destroying ==> !CanMove(pools[k])
  {
    RunOk(0, n, pools, steps, k);
    StuckWithoutCapacity(pools[k], n);
    if k > 0 {
      NothingPostedWithoutCapacity(n, pools, steps, k - 1);
      RunOk(0, n, pools, steps, k - 1);
      StuckWithoutCapacity(pools[k - 1], n);
    }
  }

  /** The shutdown never deadlocks, in any interleaving, if and only if the queue can hold a message. */
  lemma DeadlockFreeIff(capacity: nat, n: nat)
    requires 1 <= n <= 1000
    ensures (forall pools: seq<Pool>, steps: seq<Step>, k: nat | IsRun(capacity, n, pools, steps) && k <= |steps| ::
               pools[k].destroying && !ShutDown(pools[k]) ==> CanMove(pools[k]))
            <==> capacity >= 1
  {
    if capacity >= 1 {
      forall pools: seq<Pool>, steps: seq<Step>, k: nat | IsRun(capacity, n, pools, steps) && k <= |steps|
        ensures pools[k].destroying && !ShutDown(pools[k]) ==> CanMove(pools[k])
      {
        RunOk(capacity, n, pools, steps, k);
        if pools[k].destroying && !ShutDown(pools[k]) {
          NeverStuck(pools[k], n);
        }
      }
    } else {
      var p := Start(0, n);
      var pools, steps := [p, Next(p, BeginDestroy)], [BeginDestroy];
      assert IsRun(0, n, pools, steps);
      NothingPostedWithoutCapacity(n, pools, steps, 1);
    }
  }

  /** Work left once the destructor runs. */
  ghost function Measure(p: Pool): int {
    3 * (|p.workers| - p.posted) + 2 * |Items(p)| + Busy(p.workers) + (|p.workers| - p.joined) + p.log.q.between
  }

  /** Every step after the destructor has started brings the shutdown nearer. */
  lemma MeasureDecreases(p: Pool, n: nat, s: Step)
    requires Inv(p, n) && p.destroying && Enabled(p, s)
    ensures 0 <= Measure(Next(p, s)) < Measure(p)
    ensures Next(p, s).destroying
  {
    NextOk(p, n, s);
    match s
    case CountDiscard =>
    case PostTerminate =>
    case Take(w) => CountUpdate(p.workers, w, Processing(Items(p)[0]));
    case Finish(w) => CountUpdate(p.workers, w, if p.workers[w].msg.Terminate? then Stopped else Waiting);
    case Join =>
  }

  lemma MeasureNonnegative(p: Pool, n: nat)
    requires Inv(p, n)
    ensures Measure(p) >= 0
  {
  }

  /** A run stays in its destruction phase for at most Measure steps. */
  lemma {:induction false} ShutdownBounded(capacity: nat, n: nat, pools: seq<Pool>, steps: seq<Step>, i: nat, k: nat)
    requires IsRun(capacity, n, pools, steps) && i <= k <= |steps| && pools[i].destroying
    ensures pools[k].destroying && Measure(pools[k]) >= 0
    ensures k - i + Measure(pools[k]) <= Measure(pools[i])
  {
    hide Enabled, Next, Inv;
    RunOk(capacity, n, pools, steps, i);
    MeasureNonnegative(pools[i], n);
    if i < k {
      ShutdownBounded(capacity, n, pools, steps, i, k - 1);
      RunOk(capacity, n, pools, steps, k - 1);
      MeasureDecreases(pools[k - 1], n, steps[k - 1]);
    }
  }

  /** When all workers have stopped, the queue is empty and every message ever accepted and not overrun
      has been handed to exactly one worker, in the order of acceptance. */
  lemma NothingLeftBehind(capacity: nat, n: nat, pools: seq<Pool>, steps: seq<Step>, k: nat)
    requires IsRun(capacity, n, pools, steps) && k <= |steps| && n >= 1
    requires forall w | 0 <= w < n :: w < |pools[k].workers| && pools[k].workers[w].Stopped?
    ensures var l := pools[k].log;
            && Items(pools[k]) == []
            && |l.fates| == |l.pushed|
            && Messages(pools[k].handed) == Survivors(l.pushed, l.fates)
  {
    var p := pools[k];
    RunOk(capacity, n, pools, steps, k);
    if Live(p.workers) > 0 {
      var w := LiveWitness(p.workers);
      assert false;
    }
    OnlyTerminates(Items(p));
    assert p.log.pushed[..|p.log.fates|] == p.log.pushed;
  }
}
