/** The manifest log end to end: what a player that reads a grapher's log learns, when it reads a log
    from scratch and when it follows one while the grapher writes, fails and restarts. */
module ManifestTheorem {
  import opened Text
  import opened ManifestRecord
  import opened ManifestLog
  import opened ManifestHistory
  import opened ManifestWriter
  import Runs = ManifestRun
  import Tails = ManifestTail

  /** After any run of the writer, a fresh tail that reads the log in pieces of any size until no
      complete line is left returns records of appends that wrote, each at most once and in append
      order, and every acknowledged readable one that was not glued to an open line. */
  lemma FreshTailReturnsAcknowledged(steps: seq<Runs.Step>, s: Runs.Sys, calls: seq<Tails.Event>, inode: nat,
                                     t: Tails.Tail, total: seq<Record>) returns (ids: seq<nat>)
    requires Runs.After(steps) == Some(s)
    requires Tails.Run(calls, inode, "", Tails.NEW_TAIL, s.w.log, t, total)
    requires t.offset <= |s.w.log| ==> '\n' !in s.w.log[t.offset..]
    ensures StrictlyIncreasing(ids)
    ensures forall a | 0 <= a < |ids| :: ids[a] < |s.att|
    ensures total == RecordsOfAttempts(ids, s.att)
    ensures forall i | i in s.acked :: i < |s.att| && (Readable(s.att[i]) ==> (i in ids <==> i !in s.glued))
    ensures Runs.CarefulRun(steps) ==> s.glued == {}
  {
    ids := Runs.AcknowledgedRecordsAreRead(steps, s);
    Tails.FreshPiecesAddUp(calls, inode, s.w.log, t, total);
    Tails.DrainedMeansAll(t, inode, s.w.log);
    if Runs.CarefulRun(steps) { var _ := Runs.CarefulRunsLoseNothing(steps, s); }
  }

  /* ---- following the log live ---- */

  datatype Event =
    | Write(step: Runs.Step)
    | Read(found: Tails.Found, maxBytes: nat, preads: seq<Tails.PRead>, after: Tails.Tail, code: Tails.Code,
           records: seq<Record>)

  /** The grapher's steps and a tail's calls in any order. `total` is everything the calls returned.
      No step takes back a byte the tail has consumed. */
  ghost predicate Live(run: seq<Event>, inode: nat, s: Runs.Sys, t: Tails.Tail, total: seq<Record>)
  {
    if run == [] then s == Runs.INIT && t == Tails.NEW_TAIL && total == []
    else
      var before := run[..|run| - 1];
      match run[|run| - 1]
      case Write(step) =>
        t.offset <= |s.w.log| &&
        exists u :: Live(before, inode, u, t, total) && Steps(u, step, s)
      case Read(found, maxBytes, preads, after, code, records) =>
        t == after && (found.Log? ==> found == Tails.Log(inode, s.w.log)) &&
        exists u, sofar :: Live(before, inode, s, u, sofar) && total == sofar + records &&
                           Tails.ReadNewSpec(u, found, true, maxBytes, preads, after, code, records)
  }

  predicate Steps(u: Runs.Sys, step: Runs.Step, s: Runs.Sys)
  {
    Sane(u.w) && Runs.Enabled(u, step) && s == Runs.Apply(u, step)
  }

  /** A step adds to the log or takes from its end, and never takes a synced byte. */
  lemma LogGrowsOrShrinks(u: Runs.Sys, step: Runs.Step)
    requires Sane(u.w) && Runs.Enabled(u, step)
    ensures var s := Runs.Apply(u, step);
            (u.w.log <= s.w.log || s.w.log <= u.w.log) && u.w.synced <= |s.w.log|
  {
    hide ToManifestLine, LogOf, Truncate, Drop, OpenStep, BeginStep, FinishStep;
    match step {
      case Open(writer, e) => OpenMoves(u, writer, e);
      case Begin(writer, r, e) => BeginGrows(u.w, writer, r, e);
      case Sync(_, sync) => if sync.SyncFailed? { Runs.DropIsPrefix(u.w, sync.kept); }
      case Close(_, close) => if close.CloseFailed? { Runs.DropIsPrefix(u.w, close.kept); }
      case Finish(i, dirs) =>
        FinishLeavesLog(u.w, u.flights[i].flight, u.flights[i].stage.syncOk, u.flights[i].stage.closeOk, dirs);
      case Crash(kept) => Runs.DropIsPrefix(u.w, kept);
      case Start =>
    }
  }

  lemma OpenMoves(u: Runs.Sys, writer: string, e: OpenEnv)
    requires Sane(u.w)
    ensures var s := Runs.ApplyOpen(u, writer, e);
            (u.w.log <= s.w.log || s.w.log <= u.w.log) && u.w.synced <= |s.w.log|
  {
    hide ToManifestLine, LogOf, Truncate, OpenStep, Written, Runs.ViewAfter;
    Runs.OpenMoves(u.w, writer, e);
  }

  lemma FinishLeavesLog(s: State, f: Flight, syncOk: bool, closeOk: bool, dirs: bool)
    ensures var w := FinishStep(s, f, syncOk, closeOk, dirs).0; w.log == s.log && w.synced == s.synced
  {
  }

  lemma BeginGrows(s: State, writer: string, r: Record, e: AppendEnv)
    requires Sane(s)
    ensures var w := BeginStep(s, writer, r, e).state; s.log <= w.log && w.synced == s.synced
  {
    hide ToManifestLine, Written;
  }

  /** A tail that consumes synced bytes only is never ahead of the log. */
  lemma SyncedIsSpared(u: Runs.Sys, step: Runs.Step, t: Tails.Tail)
    requires Sane(u.w) && Runs.Enabled(u, step) && t.offset <= u.w.synced
    ensures t.offset <= |Runs.Apply(u, step).w.log|
  {
    LogGrowsOrShrinks(u, step);
  }

  lemma LiveReachable(run: seq<Event>, inode: nat, s: Runs.Sys, t: Tails.Tail, total: seq<Record>)
    requires Live(run, inode, s, t, total)
    ensures Runs.Inv(s) && Tails.Follows(t, inode, s.w.log) && Records(s.w.log[..t.offset]) == total
    decreases |run|
  {
    hide Runs.Inv, Runs.Apply, Runs.Enabled, Records, Tails.ReadNewSpec, Tails.Follows;
    if run == [] {
      Runs.InvInit();
      Tails.FreshFollows(inode);
    } else {
      var before := run[..|run| - 1];
      match run[|run| - 1] {
        case Write(step) =>
          var u :| Live(before, inode, u, t, total) && Steps(u, step, s);
          LiveReachable(before, inode, u, t, total);
          Runs.StepKeeps(u, step);
          LogGrowsOrShrinks(u, step);
          StepSpares(t, inode, u.w.log, s.w.log);
        case Read(found, maxBytes, preads, after, code, records) =>
          var u, sofar :| Live(before, inode, s, u, sofar) && total == sofar + records &&
                          Tails.ReadNewSpec(u, found, true, maxBytes, preads, after, code, records);
          LiveReachable(before, inode, s, u, sofar);
          if found.Log? {
            Tails.ReadExtends(u, found, maxBytes, preads, after, code, records);
          } else {
            Tails.MissKeeps(u, found, maxBytes, preads, after, code, records);
            assert sofar + records == sofar;
          }
      }
    }
  }

  lemma StepSpares(t: Tails.Tail, inode: nat, was: string, now: string)
    requires Tails.Follows(t, inode, was) && (was <= now || now <= was) && t.offset <= |now|
    ensures Tails.Follows(t, inode, now) && now[..t.offset] == was[..t.offset]
  {
    hide Tails.Follows;
    if was <= now {
      assert now == was + now[|was|..];
      Tails.FollowsWithin(t, inode, was);
      Tails.GrowthKeeps(t, inode, was, now[|was|..]);
    } else {
      assert now == was[..|now|];
      Tails.ShrinkKeeps(t, inode, was, |now|);
    }
  }

  /** A tail that follows the log while the grapher appends, fails, crashes and restarts, and from which
      no consumed byte is taken back, has once it is drained returned every acknowledged readable
      record that was not glued, exactly once and in append order. */
  lemma LiveTailReturnsAcknowledged(run: seq<Event>, inode: nat, s: Runs.Sys, t: Tails.Tail, total: seq<Record>)
    returns (ids: seq<nat>)
    requires Live(run, inode, s, t, total)
    requires t.offset <= |s.w.log| ==> '\n' !in s.w.log[t.offset..]
    ensures StrictlyIncreasing(ids)
    ensures forall a | 0 <= a < |ids| :: ids[a] < |s.att|
    ensures total == RecordsOfAttempts(ids, s.att)
    ensures forall i | i in s.acked :: i < |s.att| && (Readable(s.att[i]) ==> (i in ids <==> i !in s.glued))
  {
    hide Live, Runs.Inv, Records;
    LiveReachable(run, inode, s, t, total);
    Tails.FollowsWithin(t, inode, s.w.log);
    Tails.DrainedMeansAll(t, inode, s.w.log);
    ids := Runs.ReadAfter(s);
  }
}
