/** That the extraction queue gets drained, its workers end and its shutdown can always be brought to an
    end; and the one way it cannot. */
module ExtractionProgress {
  import opened Text
  import opened ExtractionQueue

  /** n turns of thread i, nobody else moving. */
  function Turns(s: Sys, i: nat, n: nat): (t: Sys)
    requires i < |s.threads|
    ensures |t.threads| == |s.threads|
    decreases n
  {
    if n == 0 then s else Turns(AdvanceStep(s, i), i, n - 1)
  }

  lemma {:induction false} TurnsAdd(s: Sys, i: nat, m: nat, n: nat)
    requires i < |s.threads|
    ensures Turns(s, i, m + n) == Turns(Turns(s, i, m), i, n)
    decreases m
  {
    hide AdvanceStep;
    if m > 0 { TurnsAdd(AdvanceStep(s, i), i, m - 1, n); }
  }

  lemma {:induction false} TurnsReach(steps: seq<Step>, s: Sys, i: nat, n: nat) returns (longer: seq<Step>)
    requires Reaches(steps, s) && i < |s.threads|
    ensures Reaches(longer, Turns(s, i, n))
    decreases n
  {
    hide AdvanceStep, Reaches;
    longer := steps;
    if n > 0 {
      Hop(steps, s, i, AdvanceStep(s, i));
      longer := TurnsReach(steps + [Advance(i)], AdvanceStep(s, i), i, n - 1);
    }
  }

  /* ---- draining ---- */

  /** While the module runs, four turns of a worker at the head of its loop take the oldest chunk, process
      it, report it and bring the worker back. */
  lemma WorkerTakesTheOldest(s: Sys, i: nat)
    requires i < |s.threads| && s.threads[i] == Thread(true, Check) && s.phase == RUNNING && s.q.waiting != []
    ensures var c := s.q.waiting[0];
            Turns(s, i, 4) == s.(q := s.q.(waiting := s.q.waiting[1..]), ejected := s.ejected + [c],
                                 processed := s.processed + [c])
  {
    var c := s.q.waiting[0];
    var a := At(s, i, Look);
    var b := At(s, i, Take);
    var d := At(s, i, Hold(c)).(q := Queue(s.q.waiting[1..], s.q.inProcess + 1), ejected := s.ejected + [c]);
    assert s.threads[i := Thread(true, Check)] == s.threads;
    assert AdvanceStep(s, i) == a && AdvanceStep(a, i) == b && AdvanceStep(b, i) == d;
    FourTurns(s, i);
  }

  lemma FourTurns(s: Sys, i: nat)
    requires i < |s.threads|
    ensures Turns(s, i, 4) == AdvanceStep(AdvanceStep(AdvanceStep(AdvanceStep(s, i), i), i), i)
    ensures Turns(s, i, 3) == AdvanceStep(AdvanceStep(AdvanceStep(s, i), i), i)
    ensures Turns(s, i, 2) == AdvanceStep(AdvanceStep(s, i), i) && Turns(s, i, 1) == AdvanceStep(s, i)
  {
    hide AdvanceStep;
    var a := AdvanceStep(s, i);
    assert Turns(a, i, 3) == Turns(AdvanceStep(a, i), i, 2);
  }

  /** So a single worker, given its turns, empties the queue, oldest first. */
  lemma {:induction false} WorkerDrainsTheQueue(s: Sys, i: nat)
    requires i < |s.threads| && s.threads[i] == Thread(true, Check) && s.phase == RUNNING
    ensures Turns(s, i, 4 * |s.q.waiting|) ==
            s.(q := s.q.(waiting := []), ejected := s.ejected + s.q.waiting, processed := s.processed + s.q.waiting)
    decreases |s.q.waiting|
  {
    hide AdvanceStep, Turns;
    if s.q.waiting == [] {
      NoTurns(s, i);
      assert s.ejected + [] == s.ejected && s.processed + [] == s.processed;
    } else {
      WorkerTakesTheOldest(s, i);
      var t := Turns(s, i, 4);
      WorkerDrainsTheQueue(t, i);
      TurnsAdd(s, i, 4, 4 * |t.q.waiting|);
      assert s.q.waiting == [s.q.waiting[0]] + s.q.waiting[1..];
      JoinAssociates(s.ejected, [s.q.waiting[0]], s.q.waiting[1..]);
      JoinAssociates(s.processed, [s.q.waiting[0]], s.q.waiting[1..]);
    }
  }

  lemma NoTurns(s: Sys, i: nat)
    requires i < |s.threads|
    ensures Turns(s, i, 0) == s
  {
  }

  /* ---- ending ---- */

  /** Only thread i has moved, and the phase is the same. */
  predicate OnlyMoved(s: Sys, t: Sys, i: nat)
  {
    |t.threads| == |s.threads| && t.phase == s.phase &&
    forall j | 0 <= j < |s.threads| ::
      t.threads[j].worker == s.threads[j].worker && (j != i ==> t.threads[j] == s.threads[j])
  }

  lemma TurnMovesOne(s: Sys, i: nat)
    requires i < |s.threads| && !s.threads[i].pc.Mark?
    ensures OnlyMoved(s, AdvanceStep(s, i), i)
  {
  }

  lemma MovedAgain(s: Sys, t: Sys, u: Sys, i: nat)
    requires i < |s.threads| && OnlyMoved(s, t, i) && OnlyMoved(t, u, i)
    ensures OnlyMoved(s, u, i)
  {
  }

  /** Where one turn takes a worker once the module is not running. */
  predicate WorkerTurned(s: Sys, t: Sys, i: nat)
    requires i < |s.threads| == |t.threads|
  {
    var pc := t.threads[i].pc;
    match s.threads[i].pc
    case Look => (pc.Take? || pc.Check?) && t.q == s.q && t.processed == s.processed
    case Take =>
      t.processed == s.processed &&
      ((pc.Hold? && |t.q.waiting| + 1 == |s.q.waiting|) || (pc.Check? && t.q == s.q))
    case Hold(c) => pc.Check? && t.q.waiting == s.q.waiting && t.processed == s.processed + [c]
    case _ => pc.Finished? && t.q == s.q && t.processed == s.processed
  }

  predicate WorkerCode(pc: Pc) { !pc.Mark? && !pc.Join? && !pc.Returned? }

  lemma WorkerTurns(s: Sys, i: nat)
    requires i < |s.threads| && s.threads[i].worker && s.phase != RUNNING && WorkerCode(s.threads[i].pc)
    ensures var t := AdvanceStep(s, i);
            OnlyMoved(s, t, i) && t.threads[i].worker && WorkerCode(t.threads[i].pc) && WorkerTurned(s, t, i)
  {
    TurnMovesOne(s, i);
  }

  /** When the module is not running, at most four turns end a worker, wherever it stands; the chunk it
      has in hand is processed first, and it takes at most one more. */
  lemma WorkerEnds(s: Sys, i: nat)
    requires i < |s.threads| && s.threads[i].worker && s.phase != RUNNING && WorkerCode(s.threads[i].pc)
    ensures var t := Turns(s, i, 4);
            t.threads[i].pc.Finished? && OnlyMoved(s, t, i) &&
            |t.q.waiting| + 1 >= |s.q.waiting| && |t.processed| <= |s.processed| + 1 &&
            (s.threads[i].pc.Hold? ==> t.processed == s.processed + [s.threads[i].pc.chunk])
  {
    FourTurns(s, i);
    hide Turns, AdvanceStep, OnlyMoved;
    var a := AdvanceStep(s, i);
    var b := AdvanceStep(a, i);
    var c := AdvanceStep(b, i);
    WorkerTurns(s, i);
    KnowMoved(s, a, i);
    WorkerTurns(a, i);
    KnowMoved(a, b, i);
    WorkerTurns(b, i);
    KnowMoved(b, c, i);
    WorkerTurns(c, i);
    MovedAgain(s, a, b, i);
    MovedAgain(s, b, c, i);
    MovedAgain(s, c, AdvanceStep(c, i), i);
  }

  lemma KnowMoved(s: Sys, t: Sys, i: nat)
    requires OnlyMoved(s, t, i)
    ensures |t.threads| == |s.threads| && t.phase == s.phase
  {
  }

  /* ---- a shutdown can be brought to its end ---- */

  /** Where a call stands that is draining the queue. */
  predicate Draining(t: Thread) { !t.worker && (t.pc.Look? || t.pc.Take? || t.pc.Hold?) }

  lemma CallComesToLook(s: Sys, i: nat) returns (n: nat)
    requires i < |s.threads| && Draining(s.threads[i])
    ensures var t := Turns(s, i, n); t.threads[i] == Thread(false, Look) && OnlyMoved(s, t, i)
  {
    FourTurns(s, i);
    TurnMovesOne(s, i);
    hide Turns;
    var a := AdvanceStep(s, i);
    TurnMovesOne(a, i);
    MovedAgain(s, a, AdvanceStep(a, i), i);
    NoTurns(s, i);
    n := if s.threads[i].pc.Look? then 0 else if a.threads[i].pc.Look? then 1 else 2;
  }

  /** From its look the call takes the chunks one by one and goes on to wait for the threads. */
  lemma {:induction false} CallDrainsTheQueue(s: Sys, i: nat)
    requires i < |s.threads| && s.threads[i] == Thread(false, Look)
    ensures var t := Turns(s, i, 3 * |s.q.waiting| + 1);
            t.threads[i].pc == Join(|s.stashed|, 0) && t.q.waiting == [] && OnlyMoved(s, t, i) &&
            t.processed == s.processed + s.q.waiting
    decreases |s.q.waiting|
  {
    FourTurns(s, i);
    hide Turns;
    var a := AdvanceStep(s, i);
    TurnMovesOne(s, i);
    if s.q.waiting == [] {
      assert s.processed + [] == s.processed;
    } else {
      var b := AdvanceStep(a, i);
      var t := AdvanceStep(b, i);
      TurnMovesOne(a, i);
      MovedAgain(s, a, b, i);
      TurnMovesOne(b, i);
      MovedAgain(s, b, t, i);
      assert t.q.waiting == s.q.waiting[1..] && t.processed == s.processed + [s.q.waiting[0]];
      CallDrainsTheQueue(t, i);
      TurnsAdd(s, i, 3, 3 * |t.q.waiting| + 1);
      MovedAgain(s, t, Turns(t, i, 3 * |t.q.waiting| + 1), i);
      assert s.q.waiting == [s.q.waiting[0]] + s.q.waiting[1..];
      JoinAssociates(s.processed, [s.q.waiting[0]], s.q.waiting[1..]);
    }
  }

  /** The first k threads' workers are given their turns, and end. */
  lemma {:induction false} WorkersEnd(steps: seq<Step>, s: Sys, k: nat) returns (longer: seq<Step>, t: Sys)
    requires Reaches(steps, s) && k <= |s.threads| && s.phase == SHUTTING_DOWN
    ensures Reaches(longer, t) && |t.threads| == |s.threads| && t.phase == SHUTTING_DOWN && WorkersDone(t.threads, k)
    ensures forall j | 0 <= j < |s.threads| && !s.threads[j].worker :: t.threads[j] == s.threads[j]
    decreases k
  {
    hide Reaches, Turns, PcOk;
    if k == 0 {
      longer, t := steps, s;
    } else {
      var before, r := WorkersEnd(steps, s, k - 1);
      longer, t := before, r;
      if r.threads[k - 1].worker {
        InvReachable(before, r);
        assert PcOk(r, r.threads[k - 1]);
        WorkerStands(r, k - 1);
        WorkerEnds(r, k - 1);
        longer := TurnsReach(before, r, k - 1, 4);
        t := Turns(r, k - 1, 4);
      }
    }
  }

  lemma WorkerStands(s: Sys, i: nat)
    requires i < |s.threads| && s.threads[i].worker && PcOk(s, s.threads[i])
    ensures WorkerCode(s.threads[i].pc)
  {
  }

  /** With every worker finished, the call gets past them all. */
  lemma {:induction false} JoinReturns(s: Sys, i: nat) returns (n: nat)
    requires i < |s.threads| && s.threads[i].pc.Join? && !s.threads[i].worker && WorkersDone(s.threads, |s.threads|)
    ensures Turns(s, i, n).threads[i].pc == Returned(s.threads[i].pc.seen, |s.threads|)
    decreases |s.threads| - s.threads[i].pc.k
  {
    FourTurns(s, i);
    var t := AdvanceStep(s, i);
    n := 1;
    if s.threads[i].pc.k < |s.threads| {
      hide Turns;
      var m := JoinReturns(t, i);
      TurnsAdd(s, i, 1, m);
      n := 1 + m;
    }
  }

  /** Draining first, if that is where the call stands. */
  lemma CallComesToJoin(steps: seq<Step>, s: Sys, i: nat) returns (longer: seq<Step>, t: Sys)
    requires Reaches(steps, s) && i < |s.threads| && s.phase == SHUTTING_DOWN && !s.threads[i].worker
    requires Draining(s.threads[i]) || s.threads[i].pc.Join?
    ensures Reaches(longer, t) && |t.threads| == |s.threads| && t.phase == SHUTTING_DOWN
    ensures t.threads[i].pc.Join? && !t.threads[i].worker
  {
    hide Reaches, Turns;
    longer, t := steps, s;
    if Draining(s.threads[i]) {
      var n := CallComesToLook(s, i);
      longer := TurnsReach(steps, s, i, n);
      t := Turns(s, i, n);
      CallDrainsTheQueue(t, i);
      longer := TurnsReach(longer, t, i, 3 * |t.q.waiting| + 1);
      t := Turns(t, i, 3 * |t.q.waiting| + 1);
    }
  }

  /** In every reachable state in which the module is shutting down, a call that is past the check can be
      brought to its return by turns of its own and of the workers: nothing it waits for is stuck. */
  lemma ShutdownCanReturn(steps: seq<Step>, s: Sys, i: nat) returns (longer: seq<Step>, t: Sys)
    requires Reaches(steps, s) && i < |s.threads| && s.phase == SHUTTING_DOWN && !s.threads[i].worker
    requires Draining(s.threads[i]) || s.threads[i].pc.Join?
    ensures Reaches(longer, t) && i < |t.threads| && t.threads[i].pc.Returned?
  {
    hide Reaches, Turns;
    var more, u := CallComesToJoin(steps, s, i);
    longer, t := WorkersEnd(more, u, |u.threads|);
    var n := JoinReturns(t, i);
    longer := TurnsReach(longer, t, i, n);
    t := Turns(t, i, n);
  }

  /* ---- and when it cannot ---- */

  /** A start that set RUNNING after the call set SHUTTING_DOWN: a worker runs that the call waits for,
      and nobody is about to set SHUTTING_DOWN again. */
  predicate Stuck(s: Sys, i: nat, j: nat)
  {
    i < |s.threads| && j < |s.threads| && s.phase == RUNNING &&
    s.threads[i].pc.Join? && !s.threads[i].worker && s.threads[i].pc.k <= j &&
    s.threads[j].worker && !s.threads[j].pc.Finished? &&
    (forall x | 0 <= x < |s.threads| && !s.threads[x].worker :: !s.threads[x].pc.Check? && !s.threads[x].pc.Mark?)
  }

  lemma StuckAdvance(s: Sys, x: nat, i: nat, j: nat)
    requires x < |s.threads| && PcOk(s, s.threads[x]) && Stuck(s, i, j)
    ensures Stuck(AdvanceStep(s, x), i, j)
  {
    hide TakenCareOf, WorkersDone;
  }

  lemma StuckStart(s: Sys, x: nat, i: nat, j: nat)
    requires x < |s.starters| && Stuck(s, i, j)
    ensures Stuck(AdvanceStarter(s, x), i, j)
  {
  }

  /** Then the call waits for ever, unless shutdown is called once more or the module set up again. */
  lemma StuckStays(s: Sys, step: Step, i: nat, j: nat)
    requires Inv(s) && Stuck(s, i, j) && Enabled(s, step) && !step.CallShutdown? && !step.Initialize?
    ensures Stuck(Apply(s, step), i, j)
  {
    hide Held, Conserved, AdvanceStep, AdvanceStarter, PcOk;
    match step {
      case Advance(x) =>
        hide Stuck;
        StuckAdvance(s, x, i, j);
      case AdvanceStart(x) =>
        hide Stuck;
        StuckStart(s, x, i, j);
      case _ =>
    }
  }

  /** These steps lead from s to t, and none of them calls shutdown or initialize. */
  ghost predicate GoesOn(steps: seq<Step>, s: Sys, t: Sys)
  {
    if steps == [] then t == s
    else
      var last := steps[|steps| - 1];
      exists r :: GoesOn(steps[..|steps| - 1], s, r) && Enabled(r, last) && t == Apply(r, last) &&
                  !last.CallShutdown? && !last.Initialize?
  }

  lemma {:induction false} StuckForever(steps: seq<Step>, s: Sys, t: Sys, i: nat, j: nat)
    requires Inv(s) && Stuck(s, i, j) && GoesOn(steps, s, t)
    ensures Inv(t) && Stuck(t, i, j)
    decreases |steps|
  {
    hide Inv, Stuck, Apply, Enabled;
    if steps != [] {
      var last := steps[|steps| - 1];
      var r :| GoesOn(steps[..|steps| - 1], s, r) && Enabled(r, last) && t == Apply(r, last) &&
               !last.CallShutdown? && !last.Initialize?;
      StuckForever(steps[..|steps| - 1], s, r, i, j);
      StuckStays(r, last, i, j);
      StepKeeps(r, last);
    }
  }

  /** There is such a run: a start that read INITIALIZED before the shutdown and goes on while the call
      waits for the threads. However it goes on from there, the call does not return. */
  lemma LateStartHangsTheShutdown() returns (steps: seq<Step>, s: Sys)
    ensures Reaches(steps, s) && |s.threads| == 2 && s.threads[0] == Thread(false, Join(0, 0))
    ensures forall more, t | GoesOn(more, s, t) :: |t.threads| >= 2 && t.threads[0].pc.Join?
  {
    hide Reaches;
    var start, call := ToRun(1), Thread(false, Join(0, 0));
    steps := StartHasChecked();
    Hop(steps, StartAndStop(INITIALIZED, start, [Thread(false, Check)]), 0,
        StartAndStop(INITIALIZED, start, [Thread(false, Mark)]));
    steps := steps + [Advance(0)];
    Hop(steps, StartAndStop(INITIALIZED, start, [Thread(false, Mark)]), 0,
        StartAndStop(SHUTTING_DOWN, start, [Thread(false, Look)]));
    steps := steps + [Advance(0)];
    Hop(steps, StartAndStop(SHUTTING_DOWN, start, [Thread(false, Look)]), 0,
        StartAndStop(SHUTTING_DOWN, start, [call]));
    steps := steps + [Advance(0)];
    OneMoreIs(steps, StartAndStop(SHUTTING_DOWN, start, [call]), AdvanceStart(0),
              StartAndStop(RUNNING, ToSpawn(1), [call]));
    steps := steps + [AdvanceStart(0)];
    s := StartAndStop(RUNNING, ToSpawn(0), [call, Thread(true, Check)]);
    assert [call] + [Thread(true, Check)] == [call, Thread(true, Check)];
    OneMoreIs(steps, StartAndStop(RUNNING, ToSpawn(1), [call]), AdvanceStart(0), s);
    steps := steps + [AdvanceStart(0)];
    InvReachable(steps, s);
    StaysStuck(s);
  }

  lemma StaysStuck(s: Sys)
    requires Inv(s) && Stuck(s, 0, 1)
    ensures forall more, t | GoesOn(more, s, t) :: |t.threads| >= 2 && t.threads[0].pc.Join?
  {
    hide Inv, GoesOn;
    forall more, t | GoesOn(more, s, t) ensures |t.threads| >= 2 && t.threads[0].pc.Join? {
      StuckForever(more, s, t, 0, 1);
    }
  }

  /* ---- starting ---- */

  /** n steps of start call i, nobody else moving. */
  function StartTurns(s: Sys, i: nat, n: nat): (t: Sys)
    requires i < |s.starters|
    ensures |t.starters| == |s.starters|
    decreases n
  {
    if n == 0 then s else StartTurns(AdvanceStarter(s, i), i, n - 1)
  }

  /** A start that finds the module INITIALIZED sets it running and makes the workers it was asked for, each
      at the head of its loop. */
  lemma StartMakesItsWorkers(s: Sys, i: nat, n: nat)
    requires i < |s.starters| && s.starters[i] == ToCheck(n) && s.phase == INITIALIZED
    ensures StartTurns(s, i, n + 2) ==
            s.(phase := RUNNING, starters := s.starters[i := ToSpawn(0)],
               threads := s.threads + seq(n, _ => Thread(true, Check)))
  {
    var a := s.(starters := s.starters[i := ToRun(n)]);
    var b := s.(starters := s.starters[i := ToSpawn(n)], phase := RUNNING);
    assert AdvanceStarter(s, i) == a && AdvanceStarter(a, i) == b;
    assert StartTurns(s, i, n + 2) == StartTurns(a, i, n + 1) == StartTurns(b, i, n);
    hide StartTurns;
    WorkersAreMade(b, i, n);
  }

  lemma {:induction false} WorkersAreMade(s: Sys, i: nat, n: nat)
    requires i < |s.starters| && s.starters[i] == ToSpawn(n)
    ensures StartTurns(s, i, n) ==
            s.(starters := s.starters[i := ToSpawn(0)], threads := s.threads + seq(n, _ => Thread(true, Check)))
    decreases n
  {
    if n == 0 {
      assert s.threads + seq(0, _ => Thread(true, Check)) == s.threads;
      assert s.starters[i := ToSpawn(0)] == s.starters;
    } else {
      WorkersAreMade(AdvanceStarter(s, i), i, n - 1);
      assert [Thread(true, Check)] + seq(n - 1, _ => Thread(true, Check)) == seq(n, _ => Thread(true, Check));
      JoinAssociates(s.threads, [Thread(true, Check)], seq(n - 1, _ => Thread(true, Check)));
    }
  }

  /** A start that finds any other phase, running included, changes nothing and makes no worker. */
  lemma {:induction false} OtherStartsAreIgnored(s: Sys, i: nat, n: nat, turns: nat)
    requires i < |s.starters| && s.starters[i] == ToCheck(n) && s.phase != INITIALIZED
    ensures var t := StartTurns(s, i, turns); t.phase == s.phase && t.threads == s.threads && t.q == s.q
  {
    if turns > 0 { SpentStartsStay(AdvanceStarter(s, i), i, turns - 1); }
  }

  lemma {:induction false} SpentStartsStay(s: Sys, i: nat, turns: nat)
    requires i < |s.starters| && s.starters[i] == ToSpawn(0)
    ensures StartTurns(s, i, turns) == s
    decreases turns
  {
    if turns > 0 { SpentStartsStay(s, i, turns - 1); }
  }

  /** A module whose chain was never active never runs: no start makes a worker. */
  lemma {:induction false} NoChainNoWorkers(steps: seq<Step>, s: Sys)
    requires Reaches(steps, s) && forall k | 0 <= k < |steps| && steps[k].Initialize? :: !steps[k].activeChain
    ensures s.phase in {UNKNOWN, SHUTTING_DOWN}
    ensures forall k | 0 <= k < |s.threads| :: !s.threads[k].worker
    ensures forall k | 0 <= k < |s.starters| :: s.starters[k].ToCheck? || s.starters[k] == ToSpawn(0)
    decreases |steps|
  {
    hide Apply, Enabled;
    if steps != [] {
      var init, last := steps[..|steps| - 1], steps[|steps| - 1];
      var r :| Reaches(init, r) && Enabled(r, last) && s == Apply(r, last);
      forall k | 0 <= k < |init| && init[k].Initialize? ensures !init[k].activeChain { assert init[k] == steps[k]; }
      NoChainNoWorkers(init, r);
      StillNoWorkers(r, last);
    }
  }

  lemma StillNoWorkers(s: Sys, step: Step)
    requires Enabled(s, step) && (step.Initialize? ==> !step.activeChain) && s.phase in {UNKNOWN, SHUTTING_DOWN}
    requires forall k | 0 <= k < |s.threads| :: !s.threads[k].worker
    requires forall k | 0 <= k < |s.starters| :: s.starters[k].ToCheck? || s.starters[k] == ToSpawn(0)
    ensures var t := Apply(s, step);
            t.phase in {UNKNOWN, SHUTTING_DOWN} && (forall k | 0 <= k < |t.threads| :: !t.threads[k].worker) &&
            forall k | 0 <= k < |t.starters| :: t.starters[k].ToCheck? || t.starters[k] == ToSpawn(0)
  {
  }

  /* ---- stashing ---- */

  /** Stashing a list is stashing its parts one after the other, and only the null ones leave no chunk. */
  lemma {:induction false} ChunksOfParts(a: seq<Option<Chunk>>, b: seq<Option<Chunk>>, c: Chunk)
    ensures Chunks(a + b) == Chunks(a) + Chunks(b)
    ensures Chunks([Some(c)]) == [c] && Chunks([None]) == []
    decreases |b|
  {
    var one, none: seq<Option<Chunk>> := [Some(c)], [None];
    assert one[..0] == [] && none[..0] == [];
    if b == [] {
      assert a + b == a;
    } else {
      var n := |b| - 1;
      ChunksOfParts(a, b[..n], c);
      assert (a + b)[..|a + b| - 1] == a + b[..n];
    }
  }
}
