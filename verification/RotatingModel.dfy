/** include/spdlog/sinks/rotating_file_sink-inl.h on values: the size estimate and the rename chain. */
module RotatingModel {
  import opened RotatingNames

  const MAX_FILES: nat := 200000

  type Files = map<string, string>

  /** fd_ == nullptr is !isOpen. A file's content is what was written to it, flushed or not. */
  datatype Sink = Sink(files: Files, maxSize: nat, maxFiles: nat, currentSize: nat, isOpen: bool)

  /** Where the operating system fails during one rotation: slots whose file cannot be removed, slots whose first and
      second rename attempt fails, whether reopening truncates the log file and whether it succeeds. */
  datatype RotateEnv = RotateEnv(stuck: set<nat>, firstFails: set<nat>, secondFails: set<nat>, truncated: bool, openOk: bool)

  predicate EnvOk(env: RotateEnv) {
    env.openOk ==> env.truncated
  }

  predicate Breaks(env: RotateEnv, i: nat) {
    i in env.firstFails && i in env.secondFails
  }

  /** What fwrite does with the message. */
  datatype WriteOutcome = Complete | Partial(count: nat)

  datatype SinkEnv = SinkEnv(flushOk: bool, rotate: RotateEnv, write: WriteOutcome)

  // The rename chain

  /** The slots from i downward; failed is the slot whose two renames failed, or 0. */
  function RotateFrom(files: Files, base: string, i: nat, env: RotateEnv): (r: (Files, nat))
    ensures r.1 <= i
    decreases i
  {
    if i == 0 then (files, 0)
    else
      var src, target := CalcFilename(base, i - 1), CalcFilename(base, i);
      if src !in files then RotateFrom(files, base, i - 1, env)
      else if Breaks(env, i) then (if i in env.stuck then files else files - {target}, i)
      else RotateFrom(files[target := files[src]] - {src}, base, i - 1, env)
  }

  /** The rename into slot k would fail: there is something to move, and both attempts break. */
  predicate Blocked(files: Files, base: string, env: RotateEnv, k: nat) {
    k >= 1 && CalcFilename(base, k - 1) in files && Breaks(env, k)
  }

  /** The highest blocked slot among 1..m of the files as they are before the rotation, or 0. */
  function FailingSlot(files: Files, base: string, m: nat, env: RotateEnv): (k: nat)
    ensures k <= m
    ensures k > 0 ==> Blocked(files, base, env, k)
    ensures forall j | k < j <= m :: !Blocked(files, base, env, j)
  {
    if m == 0 || Blocked(files, base, env, m) then m else FailingSlot(files, base, m - 1, env)
  }

  /** Moving the file of slot i - 1 away does not change what is blocked further down. */
  lemma {:induction false} FailingSlotBelow(files: Files, files': Files, base: string, m: nat, env: RotateEnv)
    requires forall j: nat | j < m :: CalcFilename(base, j) in files' <==> CalcFilename(base, j) in files
    ensures FailingSlot(files', base, m, env) == FailingSlot(files, base, m, env)
  {
    hide CalcFilename;
    if m > 0 {
      FailingSlotBelow(files, files', base, m - 1, env);
    }
  }

  /** The chain stops at the slot that could be foretold before it began. */
  lemma {:induction false} ChainFailsAt(files: Files, base: string, i: nat, env: RotateEnv)
    ensures RotateFrom(files, base, i, env).1 == FailingSlot(files, base, i, env)
    decreases i
  {
    hide CalcFilename, Breaks;
    if i > 0 && !Blocked(files, base, env, i) {
      var src, target := CalcFilename(base, i - 1), CalcFilename(base, i);
      if src in files {
        var moved := files[target := files[src]] - {src};
        forall j: nat | j < i - 1 ensures CalcFilename(base, j) in moved <==> CalcFilename(base, j) in files {
          if CalcFilename(base, j) == src { FilenamesDistinct(base, j, i - 1); }
          if CalcFilename(base, j) == target { FilenamesDistinct(base, j, i); }
        }
        FailingSlotBelow(files, moved, base, i - 1, env);
        ChainFailsAt(moved, base, i - 1, env);
      } else {
        ChainFailsAt(files, base, i - 1, env);
      }
    }
  }

  /** reopen(true) */
  function Reopen(s: Sink, base: string, env: RotateEnv): Sink {
    s.(files := if env.truncated then s.files[base := ""] else s.files, isOpen := env.openOk)
  }

  /** rotate_, and whether it throws. */
  function Rotate(s: Sink, base: string, env: RotateEnv): (Sink, bool) {
    var (files, failed) := RotateFrom(s.files, base, s.maxFiles, env);
    var r := Reopen(s.(files := files), base, env);
    if failed == 0 then (r, !env.openOk)
    else if env.openOk then (r.(currentSize := 0), true)
    else (r, true)
  }

  /** The size of the log file itself. */
  function RealSize(s: Sink, base: string): nat {
    if base in s.files then |s.files[base]| else 0
  }

  function Write(s: Sink, base: string, msg: string, newSize: nat, w: WriteOutcome): (Sink, bool)
    requires s.isOpen ==> base in s.files
    requires w.Partial? ==> w.count < |msg|
  {
    if !s.isOpen then (s.(currentSize := newSize), false)
    else
      match w
      case Complete => (s.(files := s.files[base := s.files[base] + msg], currentSize := newSize), false)
      case Partial(k) => (s.(files := s.files[base := s.files[base] + msg[..k]]), true)
  }

  predicate WantsRotation(s: Sink, base: string, msg: string) {
    s.currentSize + |msg| > s.maxSize && RealSize(s, base) > 0
  }

  /** sink_it_ on a formatted message, and whether it throws. */
  function SinkIt(s: Sink, base: string, msg: string, env: SinkEnv): (Sink, bool)
    requires s.isOpen ==> base in s.files
    requires EnvOk(env.rotate)
    requires env.write.Partial? ==> env.write.count < |msg|
  {
    var newSize := s.currentSize + |msg|;
    if newSize <= s.maxSize then Write(s, base, msg, newSize, env.write)
    else if !env.flushOk || !s.isOpen then (s, true)
    else if RealSize(s, base) == 0 then Write(s, base, msg, newSize, env.write)
    else
      var (r, thrown) := Rotate(s, base, env.rotate);
      if thrown then (r, true) else Write(r, base, msg, |msg|, env.write)
  }

  // The size estimate

  ghost predicate Estimates(s: Sink, base: string) {
    && (s.isOpen ==> base in s.files)
    && RealSize(s, base) <= s.currentSize
  }

  lemma {:induction false} RotateFromBase(files: Files, base: string, i: nat, env: RotateEnv)
    ensures var (files', failed) := RotateFrom(files, base, i, env);
            base in files' ==> base in files && files'[base] == files[base]
    decreases i
  {
    if i > 0 {
      var src, target := CalcFilename(base, i - 1), CalcFilename(base, i);
      if CalcFilename(base, i) == CalcFilename(base, 0) { FilenamesDistinct(base, i, 0); }
      if src !in files {
        RotateFromBase(files, base, i - 1, env);
      } else if !Breaks(env, i) {
        RotateFromBase(files[target := files[src]] - {src}, base, i - 1, env);
      }
    }
  }

  lemma RotateEstimates(s: Sink, base: string, env: RotateEnv)
    requires Estimates(s, base) && EnvOk(env)
    ensures Estimates(Rotate(s, base, env).0, base)
  {
    RotateFromBase(s.files, base, s.maxFiles, env);
  }

  /** A rotation throws exactly when some slot is blocked beforehand or the log file cannot be reopened;
      otherwise it leaves an open, empty log file and the old estimate. */
  lemma RotateThrowsIff(s: Sink, base: string, env: RotateEnv)
    requires EnvOk(env)
    ensures var (r, thrown) := Rotate(s, base, env);
            && (thrown <==> !env.openOk || FailingSlot(s.files, base, s.maxFiles, env) > 0)
            && (!thrown ==> r.isOpen && base in r.files && r.files[base] == "" && r.currentSize == s.currentSize)
  {
    ChainFailsAt(s.files, base, s.maxFiles, env);
  }

  lemma RotateLimits(s: Sink, base: string, env: RotateEnv)
    ensures Rotate(s, base, env).0.maxSize == s.maxSize && Rotate(s, base, env).0.maxFiles == s.maxFiles
  {
  }

  /** How many bytes a failing write may leave behind without spoiling the estimate:
      the surplus of the estimate, or all of it if the message rotates the file first. */
  function Slack(s: Sink, base: string, msg: string): int {
    if WantsRotation(s, base, msg) then s.currentSize else s.currentSize - RealSize(s, base)
  }

  /** The message reaches fwrite. */
  predicate Writes(s: Sink, base: string, msg: string, env: SinkEnv) {
    && s.isOpen
    && (s.currentSize + |msg| > s.maxSize ==> env.flushOk)
    && (WantsRotation(s, base, msg) ==>
          env.rotate.openOk && FailingSlot(s.files, base, s.maxFiles, env.rotate) == 0)
  }

  /** After a message the estimate is still no less than the real size if and only if the write did not fail
      with more bytes left behind than the slack. */
  lemma SinkEstimatesIff(s: Sink, base: string, msg: string, env: SinkEnv)
    requires Estimates(s, base) && EnvOk(env.rotate) && (env.write.Partial? ==> env.write.count < |msg|)
    ensures var spoils := Writes(s, base, msg, env) && env.write.Partial? && env.write.count > Slack(s, base, msg);
            Estimates(SinkIt(s, base, msg, env).0, base) <==> !spoils
  {
    hide Rotate, FailingSlot;
    RotateEstimates(s, base, env.rotate);
    RotateThrowsIff(s, base, env.rotate);
  }

  /** What the active file may hold after a message. */
  function Bound(s: Sink, msg: string): nat {
    if s.maxSize >= |msg| then s.maxSize else |msg|
  }

  predicate WrittenInFull(s: Sink, base: string, msg: string, env: SinkEnv) {
    Writes(s, base, msg, env) && env.write.Complete?
  }

  /** The estimate lets the message in although the file itself has no room for it. */
  predicate Undercounts(s: Sink, base: string, msg: string) {
    s.currentSize + |msg| <= s.maxSize < RealSize(s, base) + |msg|
  }

  lemma SinkOutcome(s: Sink, base: string, msg: string, env: SinkEnv)
    requires (s.isOpen ==> base in s.files) && EnvOk(env.rotate) && (env.write.Partial? ==> env.write.count < |msg|)
    ensures var (s', thrown) := SinkIt(s, base, msg, env);
            && (!thrown && s'.isOpen <==> WrittenInFull(s, base, msg, env))
            && (WrittenInFull(s, base, msg, env) ==>
                  RealSize(s', base) == (if WantsRotation(s, base, msg) then 0 else RealSize(s, base)) + |msg|)
  {
    hide Rotate, FailingSlot;
    RotateThrowsIff(s, base, env.rotate);
  }

  /** What a message written in full does: a rotation exactly if the estimate leaves no room and the file has bytes;
      then the message alone, else the old content and the message. The estimate starts again after a rotation. */
  lemma WrittenExactly(s: Sink, base: string, msg: string, env: SinkEnv)
    requires (s.isOpen ==> base in s.files) && EnvOk(env.rotate)
    requires WrittenInFull(s, base, msg, env)
    ensures var s' := SinkIt(s, base, msg, env).0;
            var rotates := s.currentSize + |msg| > s.maxSize && s.files[base] != "";
            && base in s'.files && s'.files[base] == (if rotates then "" else s.files[base]) + msg
            && s'.files - {base} == (if rotates then Rotate(s, base, env.rotate).0.files else s.files) - {base}
            && s' == Sink(s'.files, s.maxSize, s.maxFiles, (if rotates then 0 else s.currentSize) + |msg|, true)
  {
    RotateThrowsIff(s, base, env.rotate);
    RotateLimits(s, base, env.rotate);
    hide Rotate, FailingSlot;
    assert "" + msg == msg;
  }

  /** When a message makes the sink throw, and that a closed sink stays closed and leaves the files alone. */
  lemma SinkThrowsIff(s: Sink, base: string, msg: string, env: SinkEnv)
    requires (s.isOpen ==> base in s.files) && EnvOk(env.rotate) && (env.write.Partial? ==> env.write.count < |msg|)
    ensures var (s', thrown) := SinkIt(s, base, msg, env);
            var noRoom := s.currentSize + |msg| > s.maxSize;
            && (thrown <==>
                  || (noRoom && (!env.flushOk || !s.isOpen))
                  || (noRoom && RealSize(s, base) > 0 &&
                      (!env.rotate.openOk || FailingSlot(s.files, base, s.maxFiles, env.rotate) > 0))
                  || (s.isOpen && env.write.Partial?))
            && (!s.isOpen ==> s'.files == s.files && !s'.isOpen)
  {
    RotateThrowsIff(s, base, env.rotate);
    hide Rotate, FailingSlot;
  }

  /** Exactly when the size bound holds after a message written in full, whatever happened to the sink before:
      it fails if and only if the estimate lets the message in although the file has no room for it. */
  lemma SinkBoundedIff(s: Sink, base: string, msg: string, env: SinkEnv)
    requires (s.isOpen ==> base in s.files) && EnvOk(env.rotate)
    requires WrittenInFull(s, base, msg, env)
    ensures RealSize(SinkIt(s, base, msg, env).0, base) <= Bound(s, msg) <==> !Undercounts(s, base, msg)
  {
    SinkOutcome(s, base, msg, env);
  }

  /** An upper estimate never undercounts. */
  lemma SinkBounded(s: Sink, base: string, msg: string, env: SinkEnv)
    requires Estimates(s, base) && EnvOk(env.rotate) && (env.write.Partial? ==> env.write.count < |msg|)
    ensures var (s', thrown) := SinkIt(s, base, msg, env);
            !thrown && s'.isOpen ==> RealSize(s', base) <= Bound(s, msg)
  {
    SinkOutcome(s, base, msg, env);
  }

  /** The bound fails after a write that failed half-way: 9 of 10 bytes stay behind unnoticed,
      and the next message of 10 fills a file limited to 10 bytes up to 19. */
  lemma PartialWriteBreaksBound(msg: string, env: SinkEnv)
    requires |msg| == 10 && env.flushOk && EnvOk(env.rotate)
    ensures var s := Sink(map["log" := ""], 10, 1, 0, true);
            var (s1, failed) := SinkIt(s, "log", msg, env.(write := Partial(9)));
            var (s2, thrown) := SinkIt(s1, "log", msg, env.(write := Complete));
            Estimates(s, "log") && failed && !thrown && RealSize(s2, "log") == 19
  {
  }

  // Operations over the sink's life

  datatype Op =
    | Log(msg: string, env: SinkEnv)
    | RotateNow(rotate: RotateEnv)
    | SetMaxSize(maxSize: nat)
    | SetMaxFiles(maxFiles: nat)

  predicate OpOk(op: Op) {
    match op
    case Log(msg, env) => EnvOk(env.rotate) && (env.write.Partial? ==> env.write.count < |msg|)
    case RotateNow(env) => EnvOk(env)
    case _ => true
  }

  /** Setters refuse bad values by throwing. */
  function Apply(s: Sink, base: string, op: Op): (Sink, bool)
    requires OpOk(op) && (s.isOpen ==> base in s.files)
  {
    match op
    case Log(msg, env) => SinkIt(s, base, msg, env)
    case RotateNow(env) => Rotate(s, base, env)
    case SetMaxSize(m) => if m == 0 then (s, true) else (s.(maxSize := m), false)
    case SetMaxFiles(m) => if m > MAX_FILES then (s, true) else (s.(maxFiles := m), false)
  }

  /** A failing write that leaves more behind than the slack. */
  predicate Spoils(s: Sink, base: string, op: Op) {
    op.Log? && Writes(s, base, op.msg, op.env) && op.env.write.Partial? &&
    op.env.write.count > Slack(s, base, op.msg)
  }

  /** An open sink's log file exists. */
  predicate Ready(s: Sink, base: string) {
    s.isOpen ==> base in s.files
  }

  lemma ApplyKeepsFile(s: Sink, base: string, op: Op)
    requires OpOk(op) && Ready(s, base)
    ensures Ready(Apply(s, base, op).0, base)
  {
  }

  ghost predicate Follows(s: Sink, base: string, op: Op, s': Sink) {
    OpOk(op) && (Ready(s, base) ==> s' == Apply(s, base, op).0)
  }

  /** states: the sink before, between and after the operations. */
  ghost predicate IsLife(base: string, states: seq<Sink>, ops: seq<Op>) {
    && |states| == |ops| + 1
    && Ready(states[0], base)
    && forall i | 0 <= i < |ops| :: Follows(states[i], base, ops[i], states[i + 1])
  }

  lemma {:induction false} LifeReady(base: string, states: seq<Sink>, ops: seq<Op>, n: nat)
    requires IsLife(base, states, ops) && n <= |ops|
    ensures Ready(states[n], base)
  {
    if n > 0 {
      LifeReady(base, states, ops, n - 1);
      assert Follows(states[n - 1], base, ops[n - 1], states[n]);
      ApplyKeepsFile(states[n - 1], base, ops[n - 1]);
    }
  }

  lemma ApplyEstimatesIff(s: Sink, base: string, op: Op)
    requires Estimates(s, base) && OpOk(op)
    ensures Estimates(Apply(s, base, op).0, base) <==> !Spoils(s, base, op)
  {
    match op
    case Log(msg, env) => SinkEstimatesIff(s, base, msg, env);
    case RotateNow(env) => RotateEstimates(s, base, env);
    case _ =>
  }

  /** Through any mixture of messages, rotations and setters the estimate stays an upper bound until the first
      failing write that exceeds the slack, and stops being one with it. */
  lemma {:induction false} EstimateHoldsUntilSpoiled(base: string, states: seq<Sink>, ops: seq<Op>, n: nat)
    requires IsLife(base, states, ops) && Estimates(states[0], base) && n <= |ops|
    ensures (forall i | 0 <= i <= n :: Estimates(states[i], base)) <==>
            (forall i | 0 <= i < n :: !Spoils(states[i], base, ops[i]))
  {
    if n > 0 {
      EstimateHoldsUntilSpoiled(base, states, ops, n - 1);
      LifeReady(base, states, ops, n - 1);
      hide Estimates, Apply, Spoils;
      var k := n - 1;
      assert Follows(states[k], base, ops[k], states[k + 1]);
      if Estimates(states[k], base) {
        ApplyEstimatesIff(states[k], base, ops[k]);
        assert Estimates(states[n], base) <==> !Spoils(states[k], base, ops[k]);
      }
    }
  }

  /** Operation n is a message that is written in full. */
  ghost predicate LogsInFull(states: seq<Sink>, base: string, ops: seq<Op>, n: nat)
    requires n < |states| && n < |ops|
  {
    ops[n].Log? && WrittenInFull(states[n], base, ops[n].msg, ops[n].env)
  }

  /** In any life, failing writes and failing rotations included, exactly when the bound holds after a message written
      in full: unless the estimate undercounts before it. */
  lemma BoundedThroughLifeIff(base: string, states: seq<Sink>, ops: seq<Op>, n: nat)
    requires IsLife(base, states, ops) && n < |ops| && LogsInFull(states, base, ops, n)
    ensures RealSize(states[n + 1], base) <= Bound(states[n], ops[n].msg) <==>
            !Undercounts(states[n], base, ops[n].msg)
  {
    LifeReady(base, states, ops, n);
    assert Follows(states[n], base, ops[n], states[n + 1]);
    SinkBoundedIff(states[n], base, ops[n].msg, ops[n].env);
  }

  /** Before a failing write has exceeded the slack no estimate undercounts: until then every message written in full
      leaves the log file within the limit then in force, or as long as the message. */
  lemma BoundedThroughLife(base: string, states: seq<Sink>, ops: seq<Op>, n: nat)
    requires IsLife(base, states, ops) && Estimates(states[0], base)
    requires n < |ops| && LogsInFull(states, base, ops, n)
    requires forall i | 0 <= i < n :: !Spoils(states[i], base, ops[i])
    ensures !Undercounts(states[n], base, ops[n].msg)
    ensures RealSize(states[n + 1], base) <= Bound(states[n], ops[n].msg)
  {
    EstimateHoldsUntilSpoiled(base, states, ops, n);
    BoundedThroughLifeIff(base, states, ops, n);
  }

  // The exact estimate

  /** While the log file is open current_size_ is its size. */
  ghost predicate Exact(s: Sink, base: string) {
    Ready(s, base) && (s.isOpen ==> s.currentSize == RealSize(s, base))
  }

  /** What makes an exact estimate stale: a failing write, unless it leaves just as many bytes behind as the estimate
      is ahead (none, or after a rotation the old size), and rotate_now, which does not reset it on success. */
  predicate Stales(s: Sink, base: string, op: Op) {
    match op
    case Log(msg, env) =>
      Writes(s, base, msg, env) && env.write.Partial? && env.write.count != Slack(s, base, msg)
    case RotateNow(env) => env.openOk && FailingSlot(s.files, base, s.maxFiles, env) == 0 && s.currentSize > 0
    case _ => false
  }

  /** A rotation that throws: reopened it is empty and counted as such, else it is closed. */
  lemma RotateFails(s: Sink, base: string, env: RotateEnv)
    requires EnvOk(env)
    ensures var (r, thrown) := Rotate(s, base, env);
            thrown ==> if r.isOpen then base in r.files && r.files[base] == "" && r.currentSize == 0 else !env.openOk
  {
  }

  lemma LogExactIff(s: Sink, base: string, msg: string, env: SinkEnv)
    requires Exact(s, base) && OpOk(Log(msg, env))
    ensures Exact(SinkIt(s, base, msg, env).0, base) <==> !Stales(s, base, Log(msg, env))
  {
    RotateThrowsIff(s, base, env.rotate);
    RotateFails(s, base, env.rotate);
    hide Rotate, FailingSlot;
  }

  lemma ExactIff(s: Sink, base: string, op: Op)
    requires Exact(s, base) && OpOk(op)
    ensures Exact(Apply(s, base, op).0, base) <==> !Stales(s, base, op)
  {
    hide SinkIt, Rotate, FailingSlot;
    match op
    case Log(msg, env) => LogExactIff(s, base, msg, env);
    case RotateNow(env) =>
      RotateThrowsIff(s, base, env);
      RotateFails(s, base, env);
    case _ =>
  }

  /** Through any life the estimate stays exact until the first operation that makes it stale. */
  lemma {:induction false} ExactUntilStale(base: string, states: seq<Sink>, ops: seq<Op>, n: nat)
    requires IsLife(base, states, ops) && Exact(states[0], base) && n <= |ops|
    ensures (forall i | 0 <= i <= n :: Exact(states[i], base)) <==>
            (forall i | 0 <= i < n :: !Stales(states[i], base, ops[i]))
  {
    if n > 0 {
      ExactUntilStale(base, states, ops, n - 1);
      LifeReady(base, states, ops, n - 1);
      hide Exact, Apply, Stales;
      var k := n - 1;
      assert Follows(states[k], base, ops[k], states[k + 1]);
      if Exact(states[k], base) {
        ExactIff(states[k], base, ops[k]);
        assert Exact(states[n], base) <==> !Stales(states[k], base, ops[k]);
      }
    }
  }

  /** With an exact estimate a message written in full rotates the file if and only if the file has bytes and no room
      for it, and the file then holds the message alone. */
  lemma ExactRotatesIff(s: Sink, base: string, msg: string, env: SinkEnv)
    requires Exact(s, base) && EnvOk(env.rotate) && WrittenInFull(s, base, msg, env)
    ensures var before, s' := s.files[base], SinkIt(s, base, msg, env).0;
            && Exact(s', base) && base in s'.files
            && s'.files[base] == if before != "" && |before| + |msg| > s.maxSize then msg else before + msg
  {
    WrittenExactly(s, base, msg, env);
    hide SinkIt, Rotate;
    assert "" + msg == msg;
  }

  // What a rotation does to the numbered files

  datatype Slot = Absent | Content(text: string)

  function SlotOf(files: Files, base: string, i: nat): Slot {
    var name := CalcFilename(base, i);
    if name in files then Content(files[name]) else Absent
  }

  /** One link of the chain: the file of slot i - 1 replaces that of slot i. */
  function MoveUp(files: Files, base: string, i: nat): Files
    requires i >= 1
  {
    var src, target := CalcFilename(base, i - 1), CalcFilename(base, i);
    if src in files then files[target := files[src]] - {src} else files
  }

  lemma MoveUpSlots(files: Files, base: string, i: nat)
    requires i >= 1
    ensures SlotOf(MoveUp(files, base, i), base, i - 1) == Absent
    ensures SlotOf(MoveUp(files, base, i), base, i) ==
            if SlotOf(files, base, i - 1).Absent? then SlotOf(files, base, i) else SlotOf(files, base, i - 1)
    ensures forall j: nat | j != i && j != i - 1 :: SlotOf(MoveUp(files, base, i), base, j) == SlotOf(files, base, j)
  {
    if CalcFilename(base, i) == CalcFilename(base, i - 1) { FilenamesDistinct(base, i, i - 1); }
    forall j: nat | j != i && j != i - 1
      ensures SlotOf(MoveUp(files, base, i), base, j) == SlotOf(files, base, j)
    {
      if CalcFilename(base, i) == CalcFilename(base, j) { FilenamesDistinct(base, i, j); }
      if CalcFilename(base, i - 1) == CalcFilename(base, j) { FilenamesDistinct(base, i - 1, j); }
    }
  }

  /** What slots k..m hold after the part of the chain from m down to k + 1. */
  ghost predicate ShiftedDownTo(before: Files, after: Files, base: string, k: nat, m: nat) {
    && (forall j: nat | k < j < m :: SlotOf(after, base, j) == SlotOf(before, base, j - 1))
    && (k < m ==>
          SlotOf(after, base, m) ==
          if SlotOf(before, base, m - 1).Absent? then SlotOf(before, base, m) else SlotOf(before, base, m - 1))
    && (k < m ==> SlotOf(after, base, k) == Absent)
    && (forall j: nat | j < k || j > m :: SlotOf(after, base, j) == SlotOf(before, base, j))
    && (k == m ==> SlotOf(after, base, k) == SlotOf(before, base, k))
  }

  lemma ShiftOneMore(before: Files, after: Files, base: string, k: nat, m: nat)
    requires 1 <= k <= m && ShiftedDownTo(before, after, base, k, m)
    ensures ShiftedDownTo(before, MoveUp(after, base, k), base, k - 1, m)
  {
    MoveUpSlots(after, base, k);
  }

  /** The chain from slot i down, given what the chain above it has done. */
  lemma {:induction false} ChainShifts(before: Files, files: Files, base: string, i: nat, m: nat, env: RotateEnv)
    requires i <= m && ShiftedDownTo(before, files, base, i, m)
    ensures var (after, failed) := RotateFrom(files, base, i, env);
            && (failed == 0 ==> ShiftedDownTo(before, after, base, 0, m))
            && (failed > 0 ==>
                  exists mid :: ShiftedDownTo(before, mid, base, failed, m) &&
                                after == (if failed in env.stuck then mid else mid - {CalcFilename(base, failed)}))
    decreases i
  {
    hide SlotOf, CalcFilename, ShiftedDownTo;
    if i > 0 {
      ShiftOneMore(before, files, base, i, m);
      if CalcFilename(base, i - 1) !in files || !Breaks(env, i) {
        ChainShifts(before, MoveUp(files, base, i), base, i - 1, m, env);
      }
    }
  }

  /** The log file after a rotation that left it as slot. */
  function Truncated(slot: Slot, env: RotateEnv): Slot {
    if env.truncated then Content("") else slot
  }

  /** Reopening touches slot 0 alone. */
  lemma ReopenedSlots(files: Files, base: string, env: RotateEnv)
    ensures var after := if env.truncated then files[base := ""] else files;
            && SlotOf(after, base, 0) == Truncated(SlotOf(files, base, 0), env)
            && forall j: nat | j >= 1 :: SlotOf(after, base, j) == SlotOf(files, base, j)
  {
    forall j: nat | j >= 1 ensures SlotOf(files[base := ""], base, j) == SlotOf(files, base, j) {
      if CalcFilename(base, j) == CalcFilename(base, 0) { FilenamesDistinct(base, j, 0); }
    }
  }

  /** A rotation is the chain followed by the reopening. */
  lemma RotateSlots(s: Sink, base: string, env: RotateEnv)
    ensures var files, k := RotateFrom(s.files, base, s.maxFiles, env).0, FailingSlot(s.files, base, s.maxFiles, env);
            var (r, thrown) := Rotate(s, base, env);
            && thrown == (k > 0 || !env.openOk) && r.isOpen == env.openOk
            && r.currentSize == (if k > 0 && env.openOk then 0 else s.currentSize)
            && SlotOf(r.files, base, 0) == Truncated(SlotOf(files, base, 0), env)
            && forall j: nat {:trigger SlotOf(r.files, base, j)} | j >= 1 :: SlotOf(r.files, base, j) == SlotOf(files, base, j)
  {
    ChainFailsAt(s.files, base, s.maxFiles, env);
    ReopenedSlots(RotateFrom(s.files, base, s.maxFiles, env).0, base, env);
  }

  /** A rotation without a blocked slot shifts every file up by one and starts an empty log file;
      it throws only if the log file cannot be reopened. */
  lemma RotationShifts(s: Sink, base: string, env: RotateEnv)
    requires EnvOk(env) && FailingSlot(s.files, base, s.maxFiles, env) == 0
    ensures var m, (s', thrown) := s.maxFiles, Rotate(s, base, env); var after := s'.files;
            && thrown == !env.openOk && s'.isOpen == env.openOk && s'.currentSize == s.currentSize
            && SlotOf(after, base, 0) == Truncated(if m == 0 then SlotOf(s.files, base, 0) else Absent, env)
            && (forall j: nat | 1 <= j < m :: SlotOf(after, base, j) == SlotOf(s.files, base, j - 1))
            && (m >= 1 ==>
                  SlotOf(after, base, m) ==
                  if SlotOf(s.files, base, m - 1).Absent? then SlotOf(s.files, base, m) else SlotOf(s.files, base, m - 1))
            && (forall j: nat {:trigger SlotOf(after, base, j)} | j > m :: SlotOf(after, base, j) == SlotOf(s.files, base, j))
  {
    var m := s.maxFiles;
    var files := RotateFrom(s.files, base, m, env).0;
    ChainFailsAt(s.files, base, m, env);
    ChainShifts(s.files, s.files, base, m, m, env);
    RotateSlots(s, base, env);
    hide SlotOf, Rotate, RotateFrom, FailingSlot;
  }

  lemma RemovedSlot(files: Files, base: string, k: nat)
    ensures SlotOf(files - {CalcFilename(base, k)}, base, k) == Absent
    ensures forall j: nat | j != k :: SlotOf(files - {CalcFilename(base, k)}, base, j) == SlotOf(files, base, j)
  {
    forall j: nat | j != k
      ensures SlotOf(files - {CalcFilename(base, k)}, base, j) == SlotOf(files, base, j)
    {
      if CalcFilename(base, j) == CalcFilename(base, k) { FilenamesDistinct(base, j, k); }
    }
  }

  /** A rotation stopped at slot k leaves the slots below it, has shifted those above it, and empties the log file
      all the same. Slot k itself was moved up before, unless it is the highest one: then the removal that
      precedes the rename has deleted it, if that worked. */
  lemma FailedRotation(s: Sink, base: string, env: RotateEnv)
    requires EnvOk(env) && FailingSlot(s.files, base, s.maxFiles, env) > 0
    ensures var m, k, (s', thrown) := s.maxFiles, FailingSlot(s.files, base, s.maxFiles, env), Rotate(s, base, env);
            var before, after := s.files, s'.files;
            && thrown && s'.isOpen == env.openOk && s'.currentSize == (if env.openOk then 0 else s.currentSize)
            && SlotOf(after, base, 0) == Truncated(SlotOf(before, base, 0), env)
            && (forall j: nat {:trigger SlotOf(after, base, j)} | 1 <= j < k || j > m ::
                 SlotOf(after, base, j) == SlotOf(before, base, j))
            && SlotOf(after, base, k) == (if k == m && k in env.stuck then SlotOf(before, base, k) else Absent)
            && (forall j: nat | k < j < m :: SlotOf(after, base, j) == SlotOf(before, base, j - 1))
            && (k < m ==>
                  SlotOf(after, base, m) ==
                  if SlotOf(before, base, m - 1).Absent? then SlotOf(before, base, m) else SlotOf(before, base, m - 1))
  {
    var m, k := s.maxFiles, FailingSlot(s.files, base, s.maxFiles, env);
    var files := RotateFrom(s.files, base, m, env).0;
    ChainFailsAt(s.files, base, m, env);
    ChainShifts(s.files, s.files, base, m, m, env);
    var mid :| ShiftedDownTo(s.files, mid, base, k, m) &&
               files == (if k in env.stuck then mid else mid - {CalcFilename(base, k)});
    hide SlotOf, Rotate, RotateFrom, FailingSlot;
    RemovedSlot(mid, base, k);
    RotateSlots(s, base, env);
  }

  /** The file of slot j is still there, in place or one slot up. */
  ghost predicate Survives(before: Files, after: Files, base: string, j: nat) {
    SlotOf(after, base, j) == SlotOf(before, base, j) || SlotOf(after, base, j + 1) == SlotOf(before, base, j)
  }

  /** The contents a rotation may lose, failing or not. The log file's, if it was not moved up; and that of the highest
      slot, if there is a file to take its place, unless just that rename fails and the removal before it too. */
  predicate Loses(s: Sink, base: string, env: RotateEnv, j: nat) {
    var m, k := s.maxFiles, FailingSlot(s.files, base, s.maxFiles, env);
    || (j == 0 && (k > 0 || m == 0) && env.truncated)
    || (j == m > 0 && SlotOf(s.files, base, m - 1).Content? && !(k == m && m in env.stuck))
  }

  lemma ShiftSurvives(s: Sink, base: string, env: RotateEnv, j: nat)
    requires EnvOk(env) && FailingSlot(s.files, base, s.maxFiles, env) == 0
    requires SlotOf(s.files, base, j).Content? && !Loses(s, base, env, j)
    ensures Survives(s.files, Rotate(s, base, env).0.files, base, j)
  {
    RotationShifts(s, base, env);
    hide Rotate, SlotOf, FailingSlot;
    if j < s.maxFiles {
      assert SlotOf(Rotate(s, base, env).0.files, base, j + 1) == SlotOf(s.files, base, j);
    }
  }

  lemma FailedSurvives(s: Sink, base: string, env: RotateEnv, j: nat)
    requires EnvOk(env) && FailingSlot(s.files, base, s.maxFiles, env) > 0
    requires SlotOf(s.files, base, j).Content? && !Loses(s, base, env, j)
    ensures Survives(s.files, Rotate(s, base, env).0.files, base, j)
  {
    FailedRotation(s, base, env);
    hide Rotate, SlotOf, FailingSlot;
    if FailingSlot(s.files, base, s.maxFiles, env) <= j < s.maxFiles {
      assert SlotOf(Rotate(s, base, env).0.files, base, j + 1) == SlotOf(s.files, base, j);
    }
  }

  /** Every other content survives; without a blocked slot that is all but at most one. */
  lemma RotationLoses(s: Sink, base: string, env: RotateEnv)
    requires EnvOk(env)
    ensures forall j: nat | SlotOf(s.files, base, j).Content? && !Loses(s, base, env, j) ::
              Survives(s.files, Rotate(s, base, env).0.files, base, j)
    ensures FailingSlot(s.files, base, s.maxFiles, env) == 0 ==>
              forall i: nat, j: nat | Loses(s, base, env, i) && Loses(s, base, env, j) :: i == j == s.maxFiles
  {
    hide Rotate, SlotOf, FailingSlot, Survives;
    forall j: nat | SlotOf(s.files, base, j).Content? && !Loses(s, base, env, j)
      ensures Survives(s.files, Rotate(s, base, env).0.files, base, j)
    {
      if FailingSlot(s.files, base, s.maxFiles, env) == 0 {
        ShiftSurvives(s, base, env, j);
      } else {
        FailedSurvives(s, base, env, j);
      }
    }
  }

  // Opening

  /** The sink over an opened log file, before any rotation. */
  function Attached(files: Files, base: string, maxSize: nat, maxFiles: nat): Sink {
    var files' := if base in files then files else files[base := ""];
    Sink(files', maxSize, maxFiles, |files'[base]|, true)
  }

  predicate RotatesOnOpen(files: Files, base: string, rotateOnOpen: bool) {
    rotateOnOpen && base in files && files[base] != ""
  }

  function Opened(files: Files, base: string, maxSize: nat, maxFiles: nat, rotateOnOpen: bool, env: RotateEnv): Sink {
    var s := Attached(files, base, maxSize, maxFiles);
    if RotatesOnOpen(files, base, rotateOnOpen) then Rotate(s, base, env).0.(currentSize := 0) else s
  }

  predicate OpenThrows(files: Files, base: string, maxSize: nat, maxFiles: nat, rotateOnOpen: bool,
                       openOk: bool, env: RotateEnv) {
    || maxSize == 0 || maxFiles > MAX_FILES || !openOk
    || (RotatesOnOpen(files, base, rotateOnOpen) && (!env.openOk || FailingSlot(files, base, maxFiles, env) > 0))
  }

  /** What opening does to the files: a rotation of a non-empty log file if asked for, else nothing but the creation
      of an absent one. */
  lemma OpenedFiles(files: Files, base: string, maxSize: nat, maxFiles: nat, rotateOnOpen: bool, env: RotateEnv)
    requires EnvOk(env) && !OpenThrows(files, base, maxSize, maxFiles, rotateOnOpen, true, env)
    ensures var s := Opened(files, base, maxSize, maxFiles, rotateOnOpen, env);
            && s.maxSize == maxSize && s.maxFiles == maxFiles
            && if rotateOnOpen && base in files && files[base] != "" then
                 && SlotOf(s.files, base, 0) == Content("")
                 && (forall j: nat | 1 <= j < maxFiles :: SlotOf(s.files, base, j) == SlotOf(files, base, j - 1))
                 && (maxFiles >= 1 && SlotOf(files, base, maxFiles - 1).Content? ==>
                       SlotOf(s.files, base, maxFiles) == SlotOf(files, base, maxFiles - 1))
               else s.files == if base in files then files else files[base := ""]
  {
    var s := Attached(files, base, maxSize, maxFiles);
    RotateLimits(s, base, env);
    if RotatesOnOpen(files, base, rotateOnOpen) {
      RotationShifts(s, base, env);
    }
    hide Rotate, SlotOf, FailingSlot;
  }

  /** A sink that opens knows the exact size of its file. */
  lemma OpenedExact(files: Files, base: string, maxSize: nat, maxFiles: nat, rotateOnOpen: bool, env: RotateEnv)
    requires EnvOk(env) && !OpenThrows(files, base, maxSize, maxFiles, rotateOnOpen, true, env)
    ensures var s := Opened(files, base, maxSize, maxFiles, rotateOnOpen, env);
            Estimates(s, base) && s.isOpen && s.currentSize == RealSize(s, base)
  {
    RotateThrowsIff(Attached(files, base, maxSize, maxFiles), base, env);
  }
}
