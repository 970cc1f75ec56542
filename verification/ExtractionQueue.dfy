/** The story chunk extraction queue, the workers that drain it and the shutdown that ends them. */
module ExtractionQueue {
  import opened Text

  type Chunk = nat

  /** The deque and the count of chunks handed out and not yet reported done. */
  datatype Queue = Queue(waiting: seq<Chunk>, inProcess: nat)

  /** The chunks among possibly null pointers. */
  function Chunks(cs: seq<Option<Chunk>>): seq<Chunk>
  {
    if cs == [] then []
    else Chunks(cs[..|cs| - 1]) + (if cs[|cs| - 1].Some? then [cs[|cs| - 1].value] else [])
  }

  function StashAll(q: Queue, cs: seq<Option<Chunk>>): Queue { q.(waiting := q.waiting + Chunks(cs)) }

  function Eject(q: Queue): (Queue, Option<Chunk>)
  {
    if q.waiting == [] then (q, None) else (Queue(q.waiting[1..], q.inProcess + 1), Some(q.waiting[0]))
  }

  function Report(q: Queue): Queue { if q.inProcess > 0 then q.(inProcess := q.inProcess - 1) else q }

  predicate Idle(q: Queue) { q.waiting == [] && q.inProcess == 0 }

  class ChunkQueue {
    var extractionDeque: seq<Chunk>
    var chunksInProcess: nat

    constructor ()
      ensures Now() == Queue([], 0)
    {
      extractionDeque, chunksInProcess := [], 0;
    }

    ghost function Now(): Queue
      reads this
    {
      Queue(extractionDeque, chunksInProcess)
    }

    method StashStoryChunk(c: Option<Chunk>)
      modifies this
      ensures Now() == StashAll(old(Now()), [c])
    {
      assert [c][..0] == [] && Chunks([]) == [];
      if c.None? {
        assert extractionDeque + Chunks([c]) == extractionDeque;
        return;
      }
      extractionDeque := extractionDeque + [c.value];
    }

    method StashStoryChunks(cs: seq<Option<Chunk>>)
      modifies this
      ensures Now() == StashAll(old(Now()), cs)
    {
      if cs == [] { return; }
      for i := 0 to |cs|
        invariant Now() == StashAll(old(Now()), cs[..i])
      {
        assert cs[..i + 1][..i] == cs[..i];
        if cs[i].Some? { extractionDeque := extractionDeque + [cs[i].value]; }
      }
      assert cs[..|cs|] == cs;
    }

    method EjectStoryChunk() returns (c: Option<Chunk>)
      modifies this
      ensures (Now(), c) == Eject(old(Now()))
    {
      if extractionDeque == [] { return None; }
      c := Some(extractionDeque[0]);
      extractionDeque := extractionDeque[1..];
      chunksInProcess := chunksInProcess + 1;
    }

    method ChunkProcessed()
      modifies this
      ensures Now() == Report(old(Now()))
    {
      if chunksInProcess > 0 { chunksInProcess := chunksInProcess - 1; }
    }

    method IsIdle() returns (idle: bool)
      ensures idle == Idle(Now())
    {
      idle := extractionDeque == [] && chunksInProcess == 0;
    }
  }

  /* ---- every interleaving ---- */

  datatype Phase = UNKNOWN | INITIALIZED | RUNNING | SHUTTING_DOWN

  /** Where a thread stands. Workers run `drainExtractionQueue`; the others are calls of
      `shutdownExtraction`. Check reads the module's state, Mark sets SHUTTING_DOWN, Look asks whether
      the queue is empty, Take ejects, Hold processes and then reports, Join waits for the threads one
      by one, and Returned is past them all; `seen` is how many chunks had been stashed when the call
      last found the queue empty, `joined` how many threads there were when it returned. Finished is
      the end of a worker, and of a call that was ignored. */
  datatype Pc =
    | Check
    | Mark
    | Look
    | Take
    | Hold(chunk: Chunk)
    | Join(seen: nat, k: nat)
    | Returned(seen: nat, joined: nat)
    | Finished

  datatype Thread = Thread(worker: bool, pc: Pc)

  /** Where a call of `startExtraction` stands: before its look at the state, before it sets RUNNING,
      or with so many threads still to create. */
  datatype Starter = ToCheck(streams: nat) | ToRun(streams: nat) | ToSpawn(left: nat)

  /** `stashed`, `ejected` and `processed` are histories. */
  datatype Sys = Sys(phase: Phase, q: Queue, threads: seq<Thread>, starters: seq<Starter>,
                     stashed: seq<Chunk>, ejected: seq<Chunk>, processed: seq<Chunk>)

  const INIT := Sys(UNKNOWN, Queue([], 0), [], [], [], [], [])

  datatype Step =
    | Initialize(activeChain: bool)
    | CallStart(streams: nat)
    | Stash(chunks: seq<Option<Chunk>>)
    | CallShutdown
    | Advance(i: nat)
    | AdvanceStart(i: nat)

  function At(s: Sys, i: nat, pc: Pc): Sys
    requires i < |s.threads|
  {
    s.(threads := s.threads[i := s.threads[i].(pc := pc)])
  }

  /** Back to the head of the thread's loop. */
  function Top(worker: bool): Pc { if worker then Check else Look }

  function AdvanceStep(s: Sys, i: nat): (t: Sys)
    requires i < |s.threads|
    ensures |t.threads| == |s.threads|
  {
    var t := s.threads[i];
    match t.pc
    case Check =>
      if t.worker then At(s, i, if s.phase == RUNNING then Look else Finished)
      else At(s, i, if s.phase == SHUTTING_DOWN then Finished else Mark)
    case Mark => At(s, i, Look).(phase := SHUTTING_DOWN)
    case Look =>
      if s.q.waiting != [] then At(s, i, Take)
      else At(s, i, if t.worker then Check else Join(|s.stashed|, 0))
    case Take =>
      var (q, c) := Eject(s.q);
      if c.None? then At(s, i, Top(t.worker)) else At(s, i, Hold(c.value)).(q := q, ejected := s.ejected + [c.value])
    case Hold(c) => At(s, i, Top(t.worker)).(q := Report(s.q), processed := s.processed + [c])
    case Join(seen, k) =>
      if k >= |s.threads| then At(s, i, Returned(seen, |s.threads|))
      else if s.threads[k].worker && !s.threads[k].pc.Finished? then s
      else At(s, i, Join(seen, k + 1))
    case Returned(_, _) => s
    case Finished => s
  }

  function AdvanceStarter(s: Sys, i: nat): Sys
    requires i < |s.starters|
  {
    match s.starters[i]
    case ToCheck(n) => s.(starters := s.starters[i := if s.phase == INITIALIZED then ToRun(n) else ToSpawn(0)])
    case ToRun(n) => s.(starters := s.starters[i := ToSpawn(n)], phase := RUNNING)
    case ToSpawn(n) =>
      if n == 0 then s
      else s.(starters := s.starters[i := ToSpawn(n - 1)], threads := s.threads + [Thread(true, Check)])
  }

  /** A module is not initialised again once it shuts down. */
  predicate Enabled(s: Sys, step: Step)
  {
    match step
    case Initialize(_) => s.phase != SHUTTING_DOWN
    case Advance(i) => i < |s.threads|
    case AdvanceStart(i) => i < |s.starters|
    case _ => true
  }

  function Apply(s: Sys, step: Step): Sys
    requires Enabled(s, step)
  {
    match step
    case Initialize(activeChain) => if activeChain then s.(phase := INITIALIZED) else s
    case CallStart(n) => s.(starters := s.starters + [ToCheck(n)])
    case Stash(cs) => s.(q := StashAll(s.q, cs), stashed := s.stashed + Chunks(cs))
    case CallShutdown => s.(threads := s.threads + [Thread(false, Check)])
    case Advance(i) => AdvanceStep(s, i)
    case AdvanceStart(i) => AdvanceStarter(s, i)
  }

  /** `calls`: only what shutdown calls hold counts. */
  function HeldBy(t: Thread, calls: bool): multiset<Chunk>
  {
    if t.pc.Hold? && !(calls && t.worker) then multiset{t.pc.chunk} else multiset{}
  }

  /** The chunks the threads, or only the shutdown calls among them, have in hand. */
  function Held(ts: seq<Thread>, calls: bool): multiset<Chunk>
  {
    if ts == [] then multiset{} else Held(ts[..|ts| - 1], calls) + HeldBy(ts[|ts| - 1], calls)
  }

  lemma {:induction false} HeldSplit(ts: seq<Thread>, i: nat, calls: bool)
    requires i < |ts|
    ensures Held(ts, calls) == Held(ts[..i], calls) + HeldBy(ts[i], calls) + Held(ts[i + 1..], calls)
    decreases |ts|
  {
    hide HeldBy;
    var n := |ts| - 1;
    if i == n {
      assert ts[i + 1..] == [];
    } else {
      HeldSplit(ts[..n], i, calls);
      var rest := ts[i + 1..];
      assert ts[..n][..i] == ts[..i] && ts[..n][i + 1..] == rest[..|rest| - 1] && rest[|rest| - 1] == ts[n];
      assert Held(rest, calls) == Held(ts[..n][i + 1..], calls) + HeldBy(ts[n], calls);
    }
  }

  lemma HeldUpdate(ts: seq<Thread>, i: nat, t: Thread, calls: bool)
    requires i < |ts|
    ensures Held(ts[i := t], calls) + HeldBy(ts[i], calls) == Held(ts, calls) + HeldBy(t, calls)
  {
    hide Held, HeldBy;
    HeldSplit(ts, i, calls);
    HeldSplit(ts[i := t], i, calls);
    assert ts[i := t][..i] == ts[..i] && ts[i := t][i + 1..] == ts[i + 1..];
  }

  lemma HeldByNewcomer(ts: seq<Thread>, worker: bool, calls: bool)
    ensures Held(ts + [Thread(worker, Check)], calls) == Held(ts, calls)
  {
    var more := ts + [Thread(worker, Check)];
    assert more[..|more| - 1] == ts;
  }

  predicate Holds(t: Thread, calls: bool) { t.pc.Hold? && !(calls && t.worker) }

  lemma {:induction false} HeldEmpty(ts: seq<Thread>, calls: bool)
    ensures Held(ts, calls) == multiset{} <==> forall i | 0 <= i < |ts| :: !Holds(ts[i], calls)
  {
    if ts != [] {
      var n := |ts| - 1;
      HeldEmpty(ts[..n], calls);
      if Holds(ts[n], calls) {
        assert HeldBy(ts[n], calls)[ts[n].pc.chunk] == 1;
      } else {
        assert forall i | 0 <= i < n :: ts[i] == ts[..n][i];
      }
    }
  }

  /** With every worker finished, whatever is in hand is in a shutdown call's. */
  lemma {:induction false} OnlyCallsHold(ts: seq<Thread>)
    requires WorkersDone(ts, |ts|)
    ensures Held(ts, true) == Held(ts, false)
  {
    if ts != [] { OnlyCallsHold(ts[..|ts| - 1]); }
  }

  /** Chunks leave in the order they came, and each one ejected is in hand or processed. */
  ghost predicate Conserved(s: Sys)
  {
    s.stashed == s.ejected + s.q.waiting &&
    multiset(s.ejected) == Held(s.threads, false) + multiset(s.processed) &&
    s.q.inProcess == |Held(s.threads, false)|
  }

  predicate WorkersDone(ts: seq<Thread>, k: nat)
  {
    k <= |ts| && forall j | 0 <= j < k && ts[j].worker :: ts[j].pc.Finished?
  }

  /** The first `seen` chunks are processed or in the hands of shutdown calls. */
  ghost predicate TakenCareOf(s: Sys, seen: nat)
  {
    seen <= |s.ejected| && multiset(s.ejected[..seen]) <= multiset(s.processed) + Held(s.threads, true)
  }

  ghost predicate PcOk(s: Sys, t: Thread)
  {
    (t.worker ==> !t.pc.Mark? && !t.pc.Join? && !t.pc.Returned?) &&
    (t.pc.Join? ==> t.pc.seen <= |s.ejected| && WorkersDone(s.threads, t.pc.k)) &&
    (t.pc.Returned? ==> TakenCareOf(s, t.pc.seen) && WorkersDone(s.threads, t.pc.joined))
  }

  ghost predicate Inv(s: Sys)
  {
    Conserved(s) && forall i | 0 <= i < |s.threads| :: PcOk(s, s.threads[i])
  }

  /** Nothing a call has seen to is undone: chunks only join the ejected, the processed and the held. */
  ghost predicate Further(s: Sys, t: Sys)
  {
    s.ejected <= t.ejected &&
    multiset(s.processed) + Held(s.threads, true) <= multiset(t.processed) + Held(t.threads, true) &&
    forall k | WorkersDone(s.threads, k) :: WorkersDone(t.threads, k)
  }

  lemma FurtherKeeps(s: Sys, t: Sys, x: Thread)
    requires Further(s, t) && PcOk(s, x)
    ensures PcOk(t, x)
  {
    hide Held;
    if x.pc.Returned? { assert t.ejected[..x.pc.seen] == s.ejected[..x.pc.seen]; }
  }

  /** Moving one thread of a consistent system. */
  lemma PcsKept(s: Sys, i: nat, t: Sys)
    requires Inv(s) && i < |s.threads| == |t.threads| && t.threads == s.threads[i := t.threads[i]] && Further(s, t)
    requires PcOk(t, t.threads[i]) && Conserved(t)
    ensures Inv(t)
  {
    hide Conserved, PcOk, Further;
    forall j | 0 <= j < |t.threads| ensures PcOk(t, t.threads[j]) {
      if j != i { FurtherKeeps(s, t, s.threads[j]); }
    }
  }

  /** The reporting thread has a chunk in hand, so the count never meets its guard at zero. */
  lemma HolderIsCounted(s: Sys, i: nat)
    requires Conserved(s) && i < |s.threads| && s.threads[i].pc.Hold?
    ensures s.q.inProcess > 0 && s.threads[i].pc.chunk in Held(s.threads, false)
  {
    hide Held;
    HeldSplit(s.threads, i, false);
    assert HeldBy(s.threads[i], false)[s.threads[i].pc.chunk] == 1;
  }

  lemma TakeConserves(s: Sys, i: nat)
    requires Conserved(s) && i < |s.threads| && s.threads[i].pc.Take? && s.q.waiting != []
    ensures Conserved(AdvanceStep(s, i))
  {
    hide Held;
    var t := AdvanceStep(s, i);
    var c := s.q.waiting[0];
    HeldUpdate(s.threads, i, t.threads[i], false);
    assert Held(t.threads, false) == Held(s.threads, false) + multiset{c};
    assert s.q.waiting == [c] + s.q.waiting[1..];
    assert multiset(s.ejected + [c]) == multiset(s.ejected) + multiset{c};
  }

  lemma ReportConserves(s: Sys, i: nat)
    requires Conserved(s) && i < |s.threads| && s.threads[i].pc.Hold?
    ensures Conserved(AdvanceStep(s, i))
  {
    hide Held;
    var t := AdvanceStep(s, i);
    var c := s.threads[i].pc.chunk;
    HeldUpdate(s.threads, i, t.threads[i], false);
    HolderIsCounted(s, i);
    assert Held(t.threads, false) + multiset{c} == Held(s.threads, false);
    assert |Held(s.threads, false)| == |Held(t.threads, false)| + |multiset{c}|;
    assert multiset(s.processed + [c]) == multiset(s.processed) + multiset{c};
  }

  lemma MoveConserves(s: Sys, i: nat, pc: Pc, phase: Phase)
    requires Conserved(s) && i < |s.threads| && !s.threads[i].pc.Hold? && !pc.Hold?
    ensures Conserved(At(s, i, pc).(phase := phase))
    ensures Held(At(s, i, pc).threads, true) == Held(s.threads, true)
  {
    hide Held;
    MoveHolds(s, i, pc, false);
    MoveHolds(s, i, pc, true);
  }

  lemma MoveHolds(s: Sys, i: nat, pc: Pc, calls: bool)
    requires i < |s.threads| && !s.threads[i].pc.Hold? && !pc.Hold?
    ensures Held(At(s, i, pc).threads, calls) == Held(s.threads, calls)
  {
    hide Held;
    HeldUpdate(s.threads, i, s.threads[i].(pc := pc), calls);
    assert Held(At(s, i, pc).threads, calls) + multiset{} == Held(At(s, i, pc).threads, calls);
    assert Held(s.threads, calls) + multiset{} == Held(s.threads, calls);
  }

  lemma MoveIs(s: Sys, i: nat)
    requires i < |s.threads| && !s.threads[i].pc.Hold? && !(s.threads[i].pc.Take? && s.q.waiting != [])
    ensures var t := AdvanceStep(s, i);
            t == s || (t == At(s, i, t.threads[i].pc).(phase := t.phase) && !t.threads[i].pc.Hold?)
  {
  }

  lemma AdvanceConserves(s: Sys, i: nat)
    requires Conserved(s) && i < |s.threads|
    ensures Conserved(AdvanceStep(s, i))
  {
    hide Conserved, AdvanceStep;
    var pc := s.threads[i].pc;
    if pc.Hold? {
      ReportConserves(s, i);
    } else if pc.Take? && s.q.waiting != [] {
      TakeConserves(s, i);
    } else {
      var t := AdvanceStep(s, i);
      MoveIs(s, i);
      if t != s { MoveConserves(s, i, t.threads[i].pc, t.phase); }
    }
  }

  /** A worker that is not finished is not among those that are. */
  lemma StillDone(ts: seq<Thread>, i: nat, t: Thread)
    requires i < |ts| && t.worker == ts[i].worker && (ts[i].pc.Finished? ==> t == ts[i])
    ensures forall k | WorkersDone(ts, k) :: WorkersDone(ts[i := t], k)
  {
  }

  lemma AdvanceHolds(s: Sys, i: nat)
    requires i < |s.threads|
    ensures var t := AdvanceStep(s, i);
            multiset(s.processed) + Held(s.threads, true) <= multiset(t.processed) + Held(t.threads, true)
  {
    hide Held, AdvanceStep;
    var t := AdvanceStep(s, i);
    if s.threads[i].pc.Hold? {
      ReportHolds(s, i);
    } else if s.threads[i].pc.Take? && s.q.waiting != [] {
      TakeHolds(s, i);
    } else {
      MoveIs(s, i);
      if t != s { MoveHolds(s, i, t.threads[i].pc, true); }
    }
  }

  lemma ReportHolds(s: Sys, i: nat)
    requires i < |s.threads| && s.threads[i].pc.Hold?
    ensures var t := AdvanceStep(s, i);
            multiset(s.processed) + Held(s.threads, true) <= multiset(t.processed) + Held(t.threads, true)
  {
    hide Held;
    var t := AdvanceStep(s, i);
    var c := s.threads[i].pc.chunk;
    HeldUpdate(s.threads, i, t.threads[i], true);
    assert multiset(t.processed) == multiset(s.processed) + multiset{c};
    assert Held(t.threads, true) + HeldBy(s.threads[i], true) == Held(s.threads, true);
    forall x ensures (multiset(s.processed) + Held(s.threads, true))[x] <=
                     (multiset(t.processed) + Held(t.threads, true))[x]
    {
      assert (Held(t.threads, true) + HeldBy(s.threads[i], true))[x] == Held(s.threads, true)[x];
    }
  }

  lemma TakeHolds(s: Sys, i: nat)
    requires i < |s.threads| && s.threads[i].pc.Take? && s.q.waiting != []
    ensures var t := AdvanceStep(s, i);
            multiset(s.processed) + Held(s.threads, true) <= multiset(t.processed) + Held(t.threads, true)
  {
    hide Held;
    var t := AdvanceStep(s, i);
    HeldUpdate(s.threads, i, t.threads[i], true);
    assert Held(t.threads, true) == Held(s.threads, true) + HeldBy(t.threads[i], true);
  }

  lemma AdvanceIsFurther(s: Sys, i: nat)
    requires i < |s.threads|
    ensures var t := AdvanceStep(s, i);
            Further(s, t) && |t.threads| == |s.threads| && t.threads == s.threads[i := t.threads[i]]
  {
    hide Held;
    AdvanceHolds(s, i);
    StillDone(s.threads, i, AdvanceStep(s, i).threads[i]);
  }

  lemma PartOfSum(a: multiset<Chunk>, b: multiset<Chunk>, c: multiset<Chunk>, d: multiset<Chunk>)
    requires a + b == c + d
    ensures a <= d + c
  {
    forall x ensures a[x] <= (d + c)[x] { assert (a + b)[x] == (c + d)[x]; }
  }

  /** A shutdown call that returns leaves no worker behind, whatever starts there have been, and what was
      stashed when it last looked is processed or in another call's hands. */
  lemma ReturnKeeps(s: Sys, i: nat)
    requires Inv(s) && i < |s.threads| && s.threads[i].pc.Join? && s.threads[i].pc.k >= |s.threads|
    ensures PcOk(AdvanceStep(s, i), AdvanceStep(s, i).threads[i])
    ensures WorkersDone(AdvanceStep(s, i).threads, |s.threads|)
  {
    hide Held;
    var t := AdvanceStep(s, i);
    var seen := s.threads[i].pc.seen;
    assert PcOk(s, s.threads[i]);
    OnlyCallsHold(s.threads);
    AdvanceIsFurther(s, i);
    assert s.ejected == s.ejected[..seen] + s.ejected[seen..];
    assert multiset(s.ejected) == multiset(s.ejected[..seen]) + multiset(s.ejected[seen..]);
    PartOfSum(multiset(s.ejected[..seen]), multiset(s.ejected[seen..]), Held(s.threads, true), multiset(s.processed));
    assert t.ejected[..seen] == s.ejected[..seen];
  }

  lemma AdvanceKeeps(s: Sys, i: nat)
    requires Inv(s) && i < |s.threads|
    ensures Inv(AdvanceStep(s, i))
  {
    hide Conserved, Held, Further;
    AdvanceConserves(s, i);
    AdvanceIsFurther(s, i);
    var t := AdvanceStep(s, i);
    if t != s {
      assert PcOk(s, s.threads[i]);
      if s.threads[i].pc.Join? && s.threads[i].pc.k >= |s.threads| {
        ReturnKeeps(s, i);
      } else {
        KnowCounts(s);
        FurtherKeeps(s, t, s.threads[i]);
      }
      PcsKept(s, i, t);
    }
  }

  lemma KnowCounts(s: Sys)
    requires Conserved(s)
    ensures |s.stashed| == |s.ejected| + |s.q.waiting|
  {
  }

  /** A thread at Check is added. */
  lemma SpawnKeeps(s: Sys, t: Sys, worker: bool)
    requires Inv(s) && t.threads == s.threads + [Thread(worker, Check)] && t.q == s.q
    requires t.stashed == s.stashed && t.ejected == s.ejected && t.processed == s.processed
    ensures Inv(t)
  {
    hide Held;
    HeldByNewcomer(s.threads, worker, false);
    HeldByNewcomer(s.threads, worker, true);
    forall j | 0 <= j < |t.threads| ensures PcOk(t, t.threads[j]) {
      if j < |s.threads| { FurtherKeeps(s, t, s.threads[j]); }
    }
  }

  lemma SameThreads(s: Sys, t: Sys)
    requires Inv(s) && t.threads == s.threads && t.ejected == s.ejected && t.processed == s.processed && Conserved(t)
    ensures Inv(t)
  {
    hide Held, Conserved;
    forall j | 0 <= j < |t.threads| ensures PcOk(t, t.threads[j]) { FurtherKeeps(s, t, s.threads[j]); }
  }

  lemma StepKeeps(s: Sys, step: Step)
    requires Inv(s) && Enabled(s, step)
    ensures Inv(Apply(s, step))
  {
    hide Held, PcOk, AdvanceStep;
    match step {
      case Advance(i) => AdvanceKeeps(s, i);
      case CallShutdown => SpawnKeeps(s, Apply(s, step), false);
      case AdvanceStart(i) =>
        if s.starters[i].ToSpawn? && s.starters[i].left > 0 {
          SpawnKeeps(s, Apply(s, step), true);
        } else {
          SameThreads(s, Apply(s, step));
        }
      case _ => SameThreads(s, Apply(s, step));
    }
  }

  ghost predicate Reaches(steps: seq<Step>, s: Sys)
  {
    if steps == [] then s == INIT
    else
      var last := steps[|steps| - 1];
      exists r :: Reaches(steps[..|steps| - 1], r) && Enabled(r, last) && s == Apply(r, last)
  }

  lemma InitOk()
    ensures Inv(INIT)
  {
  }

  lemma {:induction false} InvReachable(steps: seq<Step>, s: Sys)
    requires Reaches(steps, s)
    ensures Inv(s)
    decreases |steps|
  {
    hide Inv, Apply, Enabled;
    if steps == [] {
      InitOk();
    } else {
      var last := steps[|steps| - 1];
      var r :| Reaches(steps[..|steps| - 1], r) && Enabled(r, last) && s == Apply(r, last);
      InvReachable(steps[..|steps| - 1], r);
      StepKeeps(r, last);
    }
  }

  /** In every interleaving: what was stashed is what waits, what is in process and what is done, chunks
      are taken oldest first, and idle() holds exactly when every stashed chunk has been processed. */
  lemma IdleExactlyWhenAllProcessed(steps: seq<Step>, s: Sys)
    requires Reaches(steps, s)
    ensures s.ejected <= s.stashed
    ensures multiset(s.stashed) == multiset(s.q.waiting) + Held(s.threads, false) + multiset(s.processed)
    ensures |s.stashed| == |s.q.waiting| + s.q.inProcess + |s.processed|
    ensures Idle(s.q) <==> multiset(s.processed) == multiset(s.stashed)
  {
    hide Reaches, Held, PcOk;
    InvReachable(steps, s);
    assert multiset(s.ejected + s.q.waiting) == multiset(s.ejected) + multiset(s.q.waiting);
    assert |s.stashed| == |multiset(s.stashed)|;
    assert |multiset(s.ejected)| == |Held(s.threads, false)| + |multiset(s.processed)|;
    assert s.q.waiting == [] ==> s.stashed == s.ejected;
    if multiset(s.processed) == multiset(s.stashed) {
      assert |multiset(s.processed)| == |multiset(s.stashed)|;
    }
  }

  /** Another shutdown call that read the state before it was set, and is processing a chunk. */
  predicate RacingHolder(s: Sys) { exists j :: 0 <= j < |s.threads| && Holds(s.threads[j], true) }

  /** A call that drained the queue and has returned, in any interleaving: every chunk stashed before its
      last look has been processed unless a second call raced past the check and still has one in hand;
      with nothing stashed since, idle() holds exactly when there is no such call. */
  lemma ShutdownReturnsDrained(steps: seq<Step>, s: Sys, i: nat)
    requires Reaches(steps, s) && i < |s.threads| && s.threads[i].pc.Returned?
    ensures var seen := s.threads[i].pc.seen;
            seen <= |s.stashed| &&
            (!RacingHolder(s) ==> multiset(s.stashed[..seen]) <= multiset(s.processed)) &&
            (|s.stashed| == seen ==> (Idle(s.q) <==> !RacingHolder(s)))
  {
    hide Reaches, Held;
    InvReachable(steps, s);
    assert PcOk(s, s.threads[i]);
    HeldEmpty(s.threads, true);
    HeldEmpty(s.threads, false);
    var seen := s.threads[i].pc.seen;
    assert s.stashed[..seen] == s.ejected[..seen];
    if |s.stashed| == seen {
      assert s.ejected[..seen] == s.ejected;
      AllWithCalls(multiset(s.processed), Held(s.threads, false), Held(s.threads, true));
    }
  }

  lemma AllWithCalls(processed: multiset<Chunk>, all: multiset<Chunk>, calls: multiset<Chunk>)
    requires all + processed <= processed + calls
    ensures calls == multiset{} ==> all == multiset{}
  {
    forall c ensures all[c] <= calls[c] { assert (all + processed)[c] <= (processed + calls)[c]; }
    assert all <= calls;
  }

  predicate WorkerLeft(ts: seq<Thread>) { exists j :: 0 <= j < |ts| && ts[j].worker && !ts[j].pc.Finished? }

  /** The step at which a call returns finds every worker finished, whatever starts there have been. */
  lemma WorkersAreGoneAtReturn(steps: seq<Step>, s: Sys, i: nat)
    requires Reaches(steps, s) && i < |s.threads| && s.threads[i].pc.Join?
    ensures var t := Apply(s, Advance(i));
            t.threads[i].pc.Returned? ==> !WorkerLeft(t.threads) && t.threads[i].pc.joined == |t.threads|
  {
    hide Reaches, Held;
    InvReachable(steps, s);
    if s.threads[i].pc.k >= |s.threads| { ReturnKeeps(s, i); }
  }

  /** From then on a worker that is not finished is one a start created after the return. */
  lemma OnlyLateWorkersAreLeft(steps: seq<Step>, s: Sys, i: nat)
    requires Reaches(steps, s) && i < |s.threads| && s.threads[i].pc.Returned?
    ensures var joined := s.threads[i].pc.joined;
            joined <= |s.threads| && !WorkerLeft(s.threads[..joined]) &&
            (WorkerLeft(s.threads) <==> WorkerLeft(s.threads[joined..]))
  {
    hide Reaches, Held;
    InvReachable(steps, s);
    assert PcOk(s, s.threads[i]);
    var joined := s.threads[i].pc.joined;
    if j :| 0 <= j < |s.threads| && s.threads[j].worker && !s.threads[j].pc.Finished? {
      assert s.threads[joined..][j - joined] == s.threads[j];
    }
    if j :| 0 <= j < |s.threads[joined..]| && s.threads[joined..][j].worker && !s.threads[joined..][j].pc.Finished? {
      assert s.threads[joined + j] == s.threads[joined..][j];
    }
  }

  predicate PastTheCheck(t: Thread) { !t.worker && !t.pc.Check? && !t.pc.Finished? }

  /** Calls that do not overlap at the check: the one that began the shutdown leaves the queue idle. */
  lemma LoneShutdownLeavesItIdle(steps: seq<Step>, s: Sys, i: nat)
    requires Reaches(steps, s) && i < |s.threads| && s.threads[i].pc.Returned?
    requires |s.stashed| == s.threads[i].pc.seen
    requires forall j | 0 <= j < |s.threads| && PastTheCheck(s.threads[j]) :: j == i
    ensures Idle(s.q) && multiset(s.processed) == multiset(s.stashed)
  {
    hide Reaches;
    assert forall j | 0 <= j < |s.threads| && Holds(s.threads[j], true) :: PastTheCheck(s.threads[j]);
    ShutdownReturnsDrained(steps, s, i);
    IdleExactlyWhenAllProcessed(steps, s);
  }

  lemma OneMore(steps: seq<Step>, r: Sys, step: Step)
    requires Reaches(steps, r) && Enabled(r, step)
    ensures Reaches(steps + [step], Apply(r, step))
  {
    hide Apply, Enabled;
    var longer := steps + [step];
    assert longer[..|longer| - 1] == steps && longer[|longer| - 1] == step;
  }

  /** Two shutdown calls over one stashed chunk. */
  function TwoCalls(phase: Phase, q: Queue, a: Pc, b: Pc, ejected: seq<Chunk>): Sys
  {
    Sys(phase, q, [Thread(false, a), Thread(false, b)], [], [7], ejected, [])
  }

  lemma Hop(steps: seq<Step>, r: Sys, i: nat, t: Sys)
    requires Reaches(steps, r) && i < |r.threads| && AdvanceStep(r, i) == t
    ensures Reaches(steps + [Advance(i)], t)
  {
    hide AdvanceStep, Reaches;
    OneMore(steps, r, Advance(i));
  }

  lemma OneMoreIs(steps: seq<Step>, r: Sys, step: Step, t: Sys)
    requires Reaches(steps, r) && Enabled(r, step) && Apply(r, step) == t
    ensures Reaches(steps + [step], t)
  {
    hide Apply, Enabled, Reaches;
    OneMore(steps, r, step);
  }

  lemma BothCalled() returns (steps: seq<Step>)
    ensures Reaches(steps, TwoCalls(UNKNOWN, Queue([7], 0), Check, Check, []))
  {
    hide Reaches;
    var full, call := Queue([7], 0), Thread(false, Check);
    assert Reaches([], INIT) by { Nothing(); }
    assert [Some(7)][..0] == [] && Chunks([Some(7)]) == [7];
    OneMoreIs([], INIT, Stash([Some(7)]), Sys(UNKNOWN, full, [], [], [7], [], []));
    steps := [] + [Stash([Some(7)])];
    assert [] + [call] == [call];
    OneMoreIs(steps, Sys(UNKNOWN, full, [], [], [7], [], []), CallShutdown,
              Sys(UNKNOWN, full, [call], [], [7], [], []));
    steps := steps + [CallShutdown];
    assert [call] + [call] == [call, call];
    OneMoreIs(steps, Sys(UNKNOWN, full, [call], [], [7], [], []), CallShutdown,
              TwoCalls(UNKNOWN, full, Check, Check, []));
    steps := steps + [CallShutdown];
  }

  lemma BothPassTheCheck() returns (steps: seq<Step>)
    ensures Reaches(steps, TwoCalls(SHUTTING_DOWN, Queue([7], 0), Look, Look, []))
  {
    hide Reaches;
    var full := Queue([7], 0);
    steps := BothCalled();
    Hop(steps, TwoCalls(UNKNOWN, full, Check, Check, []), 0, TwoCalls(UNKNOWN, full, Mark, Check, []));
    steps := steps + [Advance(0)];
    Hop(steps, TwoCalls(UNKNOWN, full, Mark, Check, []), 1, TwoCalls(UNKNOWN, full, Mark, Mark, []));
    steps := steps + [Advance(1)];
    Hop(steps, TwoCalls(UNKNOWN, full, Mark, Mark, []), 0, TwoCalls(SHUTTING_DOWN, full, Look, Mark, []));
    steps := steps + [Advance(0)];
    Hop(steps, TwoCalls(SHUTTING_DOWN, full, Look, Mark, []), 1, TwoCalls(SHUTTING_DOWN, full, Look, Look, []));
    steps := steps + [Advance(1)];
  }

  lemma Nothing()
    ensures Reaches([], INIT)
  {
  }

  /** Two calls that both read the state before either sets it: one takes the last chunk, the other
      finds the queue empty and returns while that chunk is still being processed. */
  lemma RacingShutdownsReturnEarly() returns (steps: seq<Step>, s: Sys)
    ensures Reaches(steps, s) && |s.threads| == 2 && s.threads[0] == Thread(false, Returned(1, 2))
    ensures |s.stashed| == 1 && !Idle(s.q) && s.processed == []
  {
    hide Reaches;
    var full, taken := Queue([7], 0), Queue([], 1);
    steps := BothPassTheCheck();
    Hop(steps, TwoCalls(SHUTTING_DOWN, full, Look, Look, []), 1, TwoCalls(SHUTTING_DOWN, full, Look, Take, []));
    steps := steps + [Advance(1)];
    Hop(steps, TwoCalls(SHUTTING_DOWN, full, Look, Take, []), 1, TwoCalls(SHUTTING_DOWN, taken, Look, Hold(7), [7]));
    steps := steps + [Advance(1)];
    Hop(steps, TwoCalls(SHUTTING_DOWN, taken, Look, Hold(7), [7]), 0,
        TwoCalls(SHUTTING_DOWN, taken, Join(1, 0), Hold(7), [7]));
    steps := steps + [Advance(0)];
    Hop(steps, TwoCalls(SHUTTING_DOWN, taken, Join(1, 0), Hold(7), [7]), 0,
        TwoCalls(SHUTTING_DOWN, taken, Join(1, 1), Hold(7), [7]));
    steps := steps + [Advance(0)];
    Hop(steps, TwoCalls(SHUTTING_DOWN, taken, Join(1, 1), Hold(7), [7]), 0,
        TwoCalls(SHUTTING_DOWN, taken, Join(1, 2), Hold(7), [7]));
    steps := steps + [Advance(0)];
    s := TwoCalls(SHUTTING_DOWN, taken, Returned(1, 2), Hold(7), [7]);
    Hop(steps, TwoCalls(SHUTTING_DOWN, taken, Join(1, 2), Hold(7), [7]), 0, s);
    steps := steps + [Advance(0)];
  }

  /** A start that read INITIALIZED before a shutdown, and the shutdown's thread if it was called. */
  function StartAndStop(phase: Phase, starter: Starter, threads: seq<Thread>): Sys
  {
    Sys(phase, Queue([], 0), threads, [starter], [], [], [])
  }

  lemma StartHasChecked() returns (steps: seq<Step>)
    ensures Reaches(steps, StartAndStop(INITIALIZED, ToRun(1), [Thread(false, Check)]))
  {
    hide Reaches;
    var none: seq<Starter>, nobody: seq<Thread> := [], [];
    assert Reaches([], INIT) by { Nothing(); }
    OneMoreIs([], INIT, Initialize(true), INIT.(phase := INITIALIZED));
    steps := [] + [Initialize(true)];
    assert none + [ToCheck(1)] == [ToCheck(1)];
    OneMoreIs(steps, INIT.(phase := INITIALIZED), CallStart(1), StartAndStop(INITIALIZED, ToCheck(1), []));
    steps := steps + [CallStart(1)];
    OneMoreIs(steps, StartAndStop(INITIALIZED, ToCheck(1), []), AdvanceStart(0),
              StartAndStop(INITIALIZED, ToRun(1), []));
    steps := steps + [AdvanceStart(0)];
    assert nobody + [Thread(false, Check)] == [Thread(false, Check)];
    OneMoreIs(steps, StartAndStop(INITIALIZED, ToRun(1), []), CallShutdown,
              StartAndStop(INITIALIZED, ToRun(1), [Thread(false, Check)]));
    steps := steps + [CallShutdown];
  }

  lemma ShutdownHasReturned() returns (steps: seq<Step>)
    ensures Reaches(steps, StartAndStop(SHUTTING_DOWN, ToRun(1), [Thread(false, Returned(0, 1))]))
  {
    hide Reaches;
    var start := ToRun(1);
    steps := StartHasChecked();
    Hop(steps, StartAndStop(INITIALIZED, start, [Thread(false, Check)]), 0,
        StartAndStop(INITIALIZED, start, [Thread(false, Mark)]));
    steps := steps + [Advance(0)];
    Hop(steps, StartAndStop(INITIALIZED, start, [Thread(false, Mark)]), 0,
        StartAndStop(SHUTTING_DOWN, start, [Thread(false, Look)]));
    steps := steps + [Advance(0)];
    Hop(steps, StartAndStop(SHUTTING_DOWN, start, [Thread(false, Look)]), 0,
        StartAndStop(SHUTTING_DOWN, start, [Thread(false, Join(0, 0))]));
    steps := steps + [Advance(0)];
    Hop(steps, StartAndStop(SHUTTING_DOWN, start, [Thread(false, Join(0, 0))]), 0,
        StartAndStop(SHUTTING_DOWN, start, [Thread(false, Join(0, 1))]));
    steps := steps + [Advance(0)];
    Hop(steps, StartAndStop(SHUTTING_DOWN, start, [Thread(false, Join(0, 1))]), 0,
        StartAndStop(SHUTTING_DOWN, start, [Thread(false, Returned(0, 1))]));
    steps := steps + [Advance(0)];
  }

  /** A start that read INITIALIZED before the shutdown and goes on after it: the shutdown has returned,
      yet the module is running again with a worker nobody will join. */
  lemma LateStartOutlivesShutdown() returns (steps: seq<Step>, s: Sys)
    ensures Reaches(steps, s) && s.phase == RUNNING && |s.threads| == 2
    ensures s.threads[0] == Thread(false, Returned(0, 1)) && s.threads[1] == Thread(true, Check)
  {
    hide Reaches;
    var done := Thread(false, Returned(0, 1));
    steps := ShutdownHasReturned();
    OneMoreIs(steps, StartAndStop(SHUTTING_DOWN, ToRun(1), [done]), AdvanceStart(0),
              StartAndStop(RUNNING, ToSpawn(1), [done]));
    steps := steps + [AdvanceStart(0)];
    s := StartAndStop(RUNNING, ToSpawn(0), [done, Thread(true, Check)]);
    assert [done] + [Thread(true, Check)] == [done, Thread(true, Check)];
    OneMoreIs(steps, StartAndStop(RUNNING, ToSpawn(1), [done]), AdvanceStart(0), s);
    steps := steps + [AdvanceStart(0)];
  }
}
