/** Whole runs of a manifest log: any number of processes one after another, any number of appends
    of one process in flight at once, torn writes, failed syncs and closes, and crashes that lose
    every byte not yet synced. */
module ManifestRun {
  import opened Text
  import opened ManifestRecord
  import opened ManifestLog
  import opened ManifestHistory
  import opened ManifestWriter

  datatype Stage = ToSync | ToClose(syncOk: bool) | ToFinish(syncOk: bool, closeOk: bool)

  /** An append past its write. `doomed`: bytes of the log were lost while its descriptor was open,
      so its own sync reports that. */
  datatype InFlight = InFlight(flight: Flight, doomed: bool, stage: Stage)

  /** `att` are the records of the appends that wrote, in the order they wrote; `acked` those whose
      append returned CL_SUCCESS; `glued` those that began while a line was open and no newline was
      asked for. `view` is the history the proof carries. */
  datatype Sys = Sys(w: State, up: bool, ready: bool, flights: map<nat, InFlight>,
                     att: seq<Record>, acked: set<nat>, glued: set<nat>, view: View)

  const INIT := Sys(State("", 0, false, false), false, false, map[], [], {}, {}, View([], []))

  datatype Step =
    | Start
    | Open(writer: string, openEnv: OpenEnv)
    | Begin(writer: string, record: Record, env: AppendEnv)
    | Sync(i: nat, sync: SyncResult)
    | Close(i: nat, close: CloseResult)
    | Finish(i: nat, directoriesSynced: bool)
    | Crash(kept: nat)

  predicate Possible(s: Sys, step: Step)
  {
    match step
    case Start => !s.up
    case Open(_, _) => s.up
    case Begin(_, _, _) => s.up && s.ready
    case Sync(i, _) => i in s.flights && s.flights[i].stage.ToSync?
    case Close(i, _) => i in s.flights && s.flights[i].stage.ToClose?
    case Finish(i, _) => i in s.flights && s.flights[i].stage.ToFinish?
    case Crash(_) => true
  }

  /** A descriptor that was open when bytes were lost does not sync as if nothing had happened. */
  predicate Reported(s: Sys, step: Step)
  {
    step.Sync? && step.i in s.flights && s.flights[step.i].doomed ==> step.sync.SyncFailed?
  }

  predicate Enabled(s: Sys, step: Step) { Possible(s, step) && Reported(s, step) }

  function Doom(flights: map<nat, InFlight>): map<nat, InFlight>
  {
    map i | i in flights :: flights[i].(doomed := true)
  }

  /** The file went from s.w to w: it was synced, or lost a suffix. */
  function Moved(s: Sys, w: State): Sys
  {
    if |w.log| < |s.w.log| && |w.log| <= |LogOf(s.view)|
    then s.(w := w, flights := Doom(s.flights), view := Truncate(s.view, |w.log|))
    else s.(w := w)
  }

  function At(s: Sys, i: nat, stage: Stage): Sys
    requires i in s.flights
  {
    s.(flights := s.flights[i := s.flights[i].(stage := stage)])
  }

  /** The history after the first n bytes of [newline] line newline. */
  function ViewAfter(v: View, newline: bool, line: string, tag: Tag, n: nat): View
  {
    var u := if newline && n > 0 then EndLine(v) else v;
    var m := if newline && n > 0 then n - 1 else n;
    if m == 0 then u
    else if m <= |line| then u.(open := u.open + [Part(line[..m], tag)])
    else EndLine(u.(open := u.open + [Part(line, tag)]))
  }

  function Apply(s: Sys, step: Step): (t: Sys)
    requires Sane(s.w) && Possible(s, step)
    ensures Sane(t.w)
  {
    match step
    case Start => s.(up := true, ready := false, w := s.w.(failed := false, needsNewline := false))
    case Open(writer, e) => ApplyOpen(s, writer, e)
    case Begin(writer, r, e) => ApplyBegin(s, writer, r, e)
    case Sync(i, sync) => At(Moved(s, SyncFile(s.w, sync)), i, ToClose(sync.Synced?))
    case Close(i, close) =>
      At(Moved(s, CloseFile(s.w, close)), i, ToFinish(s.flights[i].stage.syncOk, close.Closed?))
    case Finish(i, dirs) =>
      var stage := s.flights[i].stage;
      var (w, code) := FinishStep(s.w, s.flights[i].flight, stage.syncOk, stage.closeOk, dirs);
      s.(w := w, flights := s.flights - {i}, acked := if code == SUCCESS then s.acked + {i} else s.acked)
    case Crash(kept) => Moved(s.(up := false, ready := false, flights := map[]), Drop(s.w, kept))
  }

  /** The system between open's write and its sync. */
  function HeaderWritten(s: Sys, writer: string, e: OpenEnv): Sys
    requires Sane(s.w)
  {
    if !e.directoryOk || !e.fdOk || !e.statOk then s
    else
      var text := OpenText(s.w, writer, e);
      var n := Written(e.writes, |text|);
      var header := HeaderRecord(writer, e.now);
      s.(w := s.w.(log := s.w.log + text[..n]),
         view := ViewAfter(s.view, false, ToManifestLine(header), Header(header), n))
  }

  function ApplyOpen(s: Sys, writer: string, e: OpenEnv): (t: Sys)
    requires Sane(s.w)
    ensures Sane(t.w)
  {
    var (w, code) := OpenStep(s.w, writer, e);
    Moved(HeaderWritten(s, writer, e), w).(ready := s.ready || code == SUCCESS)
  }

  function ApplyBegin(s: Sys, writer: string, r: Record, e: AppendEnv): (t: Sys)
    requires Sane(s.w)
    ensures Sane(t.w)
  {
    var b := BeginStep(s.w, writer, r, e);
    if b.flight.None? then s
    else
      var i := |s.att|;
      var n := Written(e.writes, |AppendText(s.w, writer, r, e)|);
      s.(w := b.state, att := s.att + [r],
         flights := s.flights[i := InFlight(b.flight.value, false,
                                         if b.flight.value.written then ToSync else ToClose(true))],
         glued := if s.w.needsNewline || EndsLine(s.w.log) then s.glued else s.glued + {i},
         view := ViewAfter(s.view, s.w.needsNewline, ToManifestLine(r), Attempt(i), n))
  }

  /* ---- the invariant ---- */

  /** Attempt i's line is whole, ended and its own, inside the synced part of the log. */
  predicate Safe(s: Sys, i: nat)
    requires s.w.synced <= |LogOf(s.view)|
  {
    i < |s.att| && Whole(i, s.att) in Truncate(s.view, s.w.synced).done
  }

  ghost predicate HistoryOk(s: Sys)
  {
    Sane(s.w) && s.w.log == LogOf(s.view) && Wf(s.view, s.att) && Apart(s.view, s.glued) &&
    (forall i | i in s.glued :: i < |s.att|) &&
    forall i | 0 <= i < |s.att| :: AppendAccepts(s.att[i])
  }

  ghost predicate FlightOk(s: Sys, i: nat)
    requires HistoryOk(s) && i in s.flights
  {
    var f := s.flights[i];
    i < |s.att| && i !in s.acked && (f.stage.ToSync? ==> f.flight.written) &&
    (f.flight.written && i !in s.glued ==>
      if f.stage.ToSync? then !f.doomed ==> Whole(i, s.att) in s.view.done else f.stage.syncOk ==> Safe(s, i))
  }

  ghost predicate FlightsOk(s: Sys)
    requires HistoryOk(s)
  {
    (s.flights != map[] ==> s.up && s.ready) && forall i | i in s.flights :: FlightOk(s, i)
  }

  ghost predicate AckedOk(s: Sys)
    requires HistoryOk(s)
  {
    forall i | i in s.acked :: i < |s.att| && (i !in s.glued ==> Safe(s, i))
  }

  ghost predicate Inv(s: Sys)
  {
    HistoryOk(s) && (s.up && s.ready ==> 0 < s.w.synced) && FlightsOk(s) && AckedOk(s)
  }

  /* ---- steps keep it ---- */

  lemma {:induction false} SafeIsDone(v: View, k: nat, l: Line)
    requires k <= |LogOf(v)| && l in Truncate(v, k).done
    ensures l in v.done
    decreases |v.done|
  {
    if k < |Unlines(v.done)| {
      SafeIsDone(View(v.done[..|v.done| - 1], v.done[|v.done| - 1]), k, l);
    }
  }

  /** Losing unsynced bytes loses no safe line. */
  lemma LostKeeps(s: Sys, w: State)
    requires Inv(s) && Sane(w) && w.log <= s.w.log && |w.log| < |s.w.log| && w.synced == s.w.synced
    ensures Inv(Moved(s, w))
  {
    hide LogOf, Truncate, Wf, Whole, AppendAccepts, Apart;
    var k := |w.log|;
    TruncateLog(s.view, k);
    TruncateWf(s.view, k, s.att, s.glued);
    TruncateTwice(s.view, k, w.synced);
    assert s.w.log[..k] == w.log;
    var t := Moved(s, w);
    assert forall i | Safe(s, i) :: Safe(t, i);
    forall i | i in t.flights ensures FlightOk(t, i) { assert FlightOk(s, i); }
  }

  /** A sync makes every whole line safe. */
  lemma SyncedKeeps(s: Sys, w: State)
    requires Inv(s) && w.log == s.w.log && (w.synced == s.w.synced || w.synced == |w.log|)
    ensures Inv(Moved(s, w))
    ensures w.synced == |w.log| ==> Truncate(s.view, w.synced) == s.view
  {
    hide LogOf, Truncate, Wf, Whole, AppendAccepts, Apart;
    TruncateNothing(s.view, s.att);
    var t := Moved(s, w);
    forall i | Safe(s, i) ensures Safe(t, i) { SafeIsDone(s.view, s.w.synced, Whole(i, s.att)); }
    forall i | i in t.flights ensures FlightOk(t, i) { assert FlightOk(s, i); }
  }

  lemma DropIsPrefix(s: State, kept: nat)
    requires Sane(s)
    ensures var t := Drop(s, kept);
            t.log <= s.log && t.synced == s.synced && (|t.log| == |s.log| ==> t.log == s.log)
  {
  }

  lemma DropKeeps(s: Sys, kept: nat)
    requires Inv(s)
    ensures Inv(Moved(s, Drop(s.w, kept)))
  {
    hide FlightsOk, AckedOk, Drop, Moved, LogOf, Wf, Apart, AppendAccepts;
    DropIsPrefix(s.w, kept);
    var w := Drop(s.w, kept);
    if |w.log| < |s.w.log| { LostKeeps(s, w); } else { SyncedKeeps(s, w); }
  }

  lemma AtKeeps(s: Sys, i: nat, stage: Stage)
    requires Inv(s) && i in s.flights && HistoryOk(At(s, i, stage)) && FlightOk(At(s, i, stage), i)
    ensures Inv(At(s, i, stage))
  {
    hide LogOf, Truncate, Wf, Whole, AppendAccepts, Apart;
    var t := At(s, i, stage);
    assert forall j | Safe(s, j) :: Safe(t, j);
    forall j | j in t.flights && j != i ensures FlightOk(t, j) { assert FlightOk(s, j); }
  }

  lemma SyncKeeps(s: Sys, i: nat, sync: SyncResult)
    requires Inv(s) && Enabled(s, Sync(i, sync))
    ensures Inv(Apply(s, Sync(i, sync)))
  {
    hide LogOf, Truncate, Wf, Whole, AppendAccepts, Apart, Drop;
    var u := Moved(s, SyncFile(s.w, sync));
    assert FlightOk(s, i);
    if sync.Synced? { SyncedKeeps(s, SyncFile(s.w, sync)); } else { DropKeeps(s, sync.kept); }
    assert FlightOk(u, i);
    AtKeeps(u, i, ToClose(sync.Synced?));
  }

  lemma CloseKeeps(s: Sys, i: nat, close: CloseResult)
    requires Inv(s) && Enabled(s, Close(i, close))
    ensures Inv(Apply(s, Close(i, close)))
  {
    hide LogOf, Truncate, Wf, Whole, AppendAccepts, Apart, Drop;
    var u := Moved(s, CloseFile(s.w, close));
    if close.Closed? { SyncedKeeps(s, s.w); } else { DropKeeps(s, close.kept); }
    assert FlightOk(u, i);
    AtKeeps(u, i, ToFinish(s.flights[i].stage.syncOk, close.Closed?));
  }

  lemma FinishKeeps(s: Sys, i: nat, dirs: bool)
    requires Inv(s) && Enabled(s, Finish(i, dirs))
    ensures Inv(Apply(s, Finish(i, dirs)))
  {
    hide LogOf, Truncate, Wf, Whole, AppendAccepts, Apart;
    var t := Apply(s, Finish(i, dirs));
    assert FlightOk(s, i);
    assert forall j | Safe(s, j) :: Safe(t, j);
    forall j | j in t.flights ensures FlightOk(t, j) { assert FlightOk(s, j); }
  }

  lemma CrashKeeps(s: Sys, kept: nat)
    requires Inv(s)
    ensures Inv(Apply(s, Crash(kept)))
  {
    hide LogOf, Truncate, Wf, Whole, AppendAccepts, Apart, Drop;
    var t := s.(up := false, ready := false, flights := map[]);
    assert forall j | Safe(s, j) :: Safe(t, j);
    DropKeeps(t, kept);
  }

  lemma StartKeeps(s: Sys)
    requires Inv(s) && !s.up
    ensures Inv(Apply(s, Start))
  {
    hide Truncate, Wf, AppendAccepts, Whole, LogOf, Apart;
    var t := Apply(s, Start);
    assert forall j | Safe(s, j) :: Safe(t, j);
  }

  /** The history follows the bytes while a line is being written. */
  lemma ViewAfterKeeps(v: View, newline: bool, line: string, tag: Tag, n: nat, s: nat, att: seq<Record>,
                       glued: set<nat>)
    requires Wf(v, att) && Apart(v, glued) && s <= |LogOf(v)|
    requires n <= (if newline then 1 else 0) + |line| + 1
    requires PartOk(Part(line, tag), att) && line != ""
    requires tag.Attempt? ==> TagsBelow(v, tag.i) && (v.open == [] || newline ==> tag.i !in glued)
    ensures var u := ViewAfter(v, newline, line, tag, n);
            LogOf(u) == LogOf(v) + ((if newline then "\n" else "") + (line + "\n"))[..n] &&
            Wf(u, att) && Apart(u, glued) && Truncate(u, s) == Truncate(v, s) &&
            (n == (if newline then 1 else 0) + |line| + 1 && (v.open == [] || newline) ==>
               [Part(line, tag)] in u.done) &&
            (forall l | l in v.done :: l in u.done)
  {
    hide LogOf, Truncate, PartOk, Wf, Apart;
    var text := (if newline then "\n" else "") + (line + "\n");
    var u := if newline && n > 0 then EndLine(v) else v;
    var m := if newline && n > 0 then n - 1 else n;
    EndLineKeeps(v, s, att, glued);
    assert forall a | 0 <= a < |LinesOf(v)| :: LinesOf(u)[a] == LinesOf(v)[a];
    if m == 0 {
      assert n == 0 || text[..n] == "\n";
    } else {
      var part := Part(if m <= |line| then line[..m] else line, tag);
      PrefixOk(Part(line, tag), part.text, att);
      GrowLineKeeps(u, part, s, att, glued);
      var w := u.(open := u.open + [part]);
      assert u.open == [] ==> w.open == [part];
      if m <= |line| {
        assert text[..n] == (if newline then "\n" else "") + part.text;
      } else {
        EndLineKeeps(w, s, att, glued);
        assert text[..n] == (if newline then "\n" else "") + part.text + "\n";
      }
    }
  }

  lemma PrefixOk(p: Part, text: string, att: seq<Record>)
    requires PartOk(p, att) && text <= p.text && text != ""
    ensures PartOk(Part(text, p.tag), att)
  {
    hide ToManifestLine;
  }

  lemma BeginKeeps(s: Sys, writer: string, r: Record, e: AppendEnv)
    requires Inv(s) && s.up && s.ready
    ensures Inv(ApplyBegin(s, writer, r, e))
  {
    hide Truncate, Wf, AppendAccepts, ToManifestLine, PartOk, ViewAfter, LogOf, Apart, EndsLine;
    var b := BeginStep(s.w, writer, r, e);
    if b.flight.Some? {
      var i := |s.att|;
      var t := ApplyBegin(s, writer, r, e);
      var n := Written(e.writes, |AppendText(s.w, writer, r, e)|);
      MoreAttempts(s.view, s.att, r);
      WholeIsOk(s.att + [r], i);
      LineIsOneLine(r);
      TagsBelowAttempts(s.view, s.att);
      MoreGlued(s, t.glued);
      OpenLineShows(s.view, s.att);
      ViewAfterKeeps(s.view, s.w.needsNewline, ToManifestLine(r), Attempt(i), n, s.w.synced, t.att, t.glued);
      assert forall j | 0 <= j < i :: Whole(j, s.att) == Whole(j, t.att);
      assert forall j | Safe(s, j) :: Safe(t, j);
      forall j | j in t.flights ensures FlightOk(t, j) { if j != i { assert FlightOk(s, j); } }
    }
  }

  lemma MoreGlued(s: Sys, glued: set<nat>)
    requires Inv(s) && (glued == s.glued || glued == s.glued + {|s.att|})
    ensures Apart(s.view, glued)
  {
    hide ToManifestLine;
    TagsBelowAttempts(s.view, s.att);
    assert forall a | 0 <= a < |LinesOf(s.view)| :: StartsApart(LinesOf(s.view)[a], s.glued);
  }

  lemma WholeIsOk(att: seq<Record>, i: nat)
    requires i < |att|
    ensures PartOk(Whole(i, att)[0], att)
  {
    hide ToManifestLine;
    LineIsOneLine(att[i]);
  }

  /** What ends with a newline has no line open. */
  lemma OpenLineShows(v: View, att: seq<Record>)
    requires Wf(v, att)
    ensures EndsLine(LogOf(v)) <==> v.open == []
  {
    hide LineText, PartOk;
    assert v.open == LinesOf(v)[|v.done|];
    NoText(v.open, att);
    LineHasNoNewline(v.open, att);
    UnlinesEnds(v.done);
    var text := LineText(v.open);
    if text != "" {
      assert LogOf(v)[|LogOf(v)| - 1] == text[|text| - 1];
    } else {
      assert LogOf(v) == Unlines(v.done);
    }
  }

  /** The header of an empty log joins the history; an old log is left alone. */
  lemma HeaderKeeps(s: Sys, writer: string, e: OpenEnv)
    requires Inv(s) && s.up
    ensures var u := HeaderWritten(s, writer, e);
            Inv(u) && u.up && (OpenText(s.w, writer, e) == "" ==> u.w == s.w)
  {
    hide Truncate, Wf, AppendAccepts, ToManifestLine, PartOk, ViewAfter, Apart;
    var text := OpenText(s.w, writer, e);
    var n := Written(e.writes, |text|);
    var header := HeaderRecord(writer, e.now);
    LineIsOneLine(header);
    var u := HeaderWritten(s, writer, e);
    if s.w.log == "" {
      HeaderIsOk(header, s.att);
      ViewAfterKeeps(s.view, false, ToManifestLine(header), Header(header), n, s.w.synced, s.att, s.glued);
      assert "" + (ToManifestLine(header) + "\n") == text;
    } else {
      assert text[..n] == "" && s.w.log + "" == s.w.log;
      NothingAfter(s.view, ToManifestLine(header), Header(header));
    }
    assert forall j | Safe(s, j) :: Safe(u, j);
    forall j | j in u.flights ensures FlightOk(u, j) { assert FlightOk(s, j); }
  }

  lemma NothingAfter(v: View, line: string, tag: Tag)
    ensures ViewAfter(v, false, line, tag, 0) == v
  {
  }

  lemma HeaderIsOk(h: Record, att: seq<Record>)
    requires h.op == OPEN
    ensures PartOk(Part(ToManifestLine(h), Header(h)), att)
  {
    hide ToManifestLine;
    LineIsOneLine(h);
  }

  /** What open makes of the file after the header: it loses an unsynced suffix, or syncs the rest. */
  lemma OpenMoves(s: State, writer: string, e: OpenEnv)
    requires Sane(s)
    ensures var (w, code) := OpenStep(s, writer, e);
            var text := OpenText(s, writer, e);
            var u := if e.directoryOk && e.fdOk && e.statOk then s.log + text[..Written(e.writes, |text|)] else s.log;
            w.log <= u && (w.synced == s.synced || (w.synced == |w.log| && w.log == u)) &&
            (code == SUCCESS ==> w.log != "" && w.synced == |w.log|)
  {
    hide ToManifestLine, EndsLine, Written, Drop;
    if e.directoryOk && e.fdOk && e.statOk {
      var text := OpenText(s, writer, e);
      var t := s.(log := s.log + text[..Written(e.writes, |text|)]);
      if s.log == "" { assert text != "" && text[..|text|] == text; }
      var u := if Written(e.writes, |text|) == |text| then SyncFile(t, e.sync) else t;
      if e.sync.SyncFailed? { DropIsPrefix(t, e.sync.kept); }
      if e.close.CloseFailed? { DropIsPrefix(u, e.close.kept); }
    } else if e.close.CloseFailed? {
      DropIsPrefix(s, e.close.kept);
    }
  }

  lemma OpenKeeps(s: Sys, writer: string, e: OpenEnv)
    requires Inv(s) && s.up
    ensures Inv(ApplyOpen(s, writer, e))
  {
    hide ViewAfter, OpenStep, LogOf, Truncate, Wf, AppendAccepts, Whole, Apart;
    var u := HeaderWritten(s, writer, e);
    var (w, code) := OpenStep(s.w, writer, e);
    HeaderKeeps(s, writer, e);
    OpenMoves(s.w, writer, e);
    if |w.log| < |u.w.log| { LostKeeps(u, w); } else { SyncedKeeps(u, w); }
    ReadyKeeps(Moved(u, w), s.ready || code == SUCCESS);
  }

  lemma ReadyKeeps(s: Sys, ready: bool)
    requires Inv(s) && (s.ready ==> ready) && (s.up && ready ==> 0 < s.w.synced)
    ensures Inv(s.(ready := ready))
  {
    hide LogOf, Truncate, Wf, AppendAccepts, Whole, Apart;
    var t := s.(ready := ready);
    assert forall j | Safe(s, j) :: Safe(t, j);
    forall j | j in t.flights ensures FlightOk(t, j) { assert FlightOk(s, j); }
  }

  lemma StepKeeps(s: Sys, step: Step)
    requires Inv(s) && Enabled(s, step)
    ensures Inv(Apply(s, step))
  {
    hide HistoryOk, FlightsOk, AckedOk, ApplyOpen, ApplyBegin;
    match step {
      case Start => StartKeeps(s);
      case Open(writer, e) => OpenKeeps(s, writer, e);
      case Begin(writer, r, e) => BeginKeeps(s, writer, r, e);
      case Sync(i, sync) => SyncKeeps(s, i, sync);
      case Close(i, close) => CloseKeeps(s, i, close);
      case Finish(i, dirs) => FinishKeeps(s, i, dirs);
      case Crash(kept) => CrashKeeps(s, kept);
    }
  }

  /* ---- whole runs ---- */

  /** The system after a run, if each of its steps could be taken. */
  function After(steps: seq<Step>): (s: Option<Sys>)
    ensures s.Some? ==> Sane(s.value.w)
  {
    if steps == [] then Some(INIT)
    else
      var last := steps[|steps| - 1];
      match After(steps[..|steps| - 1])
      case None => None
      case Some(t) => if Enabled(t, last) then Some(Apply(t, last)) else None
  }

  lemma {:induction false} InvReachable(steps: seq<Step>, s: Sys)
    requires After(steps) == Some(s)
    ensures Inv(s)
    decreases |steps|
  {
    hide Inv, Apply, Enabled;
    if steps == [] {
      InvInit();
    } else {
      var t := After(steps[..|steps| - 1]).value;
      InvReachable(steps[..|steps| - 1], t);
      StepKeeps(t, steps[|steps| - 1]);
    }
  }

  lemma InvInit()
    ensures Inv(INIT)
  {
    EmptyText();
  }

  /** After any run a reader of the whole log gets records of appends that wrote, each at most once
      and in append order, and of the acknowledged ones (nameless publications and headers apart)
      exactly those that were not glued to an open line. */
  lemma AcknowledgedRecordsAreRead(steps: seq<Step>, s: Sys) returns (ids: seq<nat>)
    requires After(steps) == Some(s)
    ensures StrictlyIncreasing(ids)
    ensures forall a | 0 <= a < |ids| :: ids[a] < |s.att|
    ensures Records(s.w.log) == RecordsOfAttempts(ids, s.att)
    ensures forall i | i in ids :: i !in s.glued
    ensures forall i | i in s.acked :: i < |s.att| && (Readable(s.att[i]) ==> (i in ids <==> i !in s.glued))
  {
    InvReachable(steps, s);
    ids := ReadAfter(s);
  }

  lemma ReadAfter(s: Sys) returns (ids: seq<nat>)
    requires Inv(s)
    ensures StrictlyIncreasing(ids)
    ensures forall a | 0 <= a < |ids| :: ids[a] < |s.att|
    ensures Records(s.w.log) == RecordsOfAttempts(ids, s.att)
    ensures forall i | i in ids :: i !in s.glued
    ensures forall i | i in s.acked :: i < |s.att| && (Readable(s.att[i]) ==> (i in ids <==> i !in s.glued))
  {
    hide Truncate, AppendAccepts, Records, Shown, PartOk, ToManifestLine, Readable, LogOf;
    assert forall a | 0 <= a < |s.view.done| :: s.view.done[a] == LinesOf(s.view)[a];
    assert Ordered(s.view.done);
    ids := Shown(s.view.done, s.att);
    RecordsOfLog(s.view, s.att);
    ShownFacts(s.view.done, s.att);
    assert forall a | 0 <= a < |s.view.done| :: StartsApart(s.view.done[a], s.glued);
    forall i | i in s.acked && i !in s.glued && Readable(s.att[i]) ensures i in ids {
      assert Safe(s, i);
      SafeIsDone(s.view, s.w.synced, Whole(i, s.att));
      WholeIsShown(s.view.done, i, s.att);
    }
  }

  /* ---- when nothing is glued ---- */

  /** An append whose sync or close failed has not yet told the writer. */
  predicate Unflagged(s: Sys)
  {
    exists i :: i in s.flights && Lossy(s.flights[i].stage)
  }

  predicate Lossy(stage: Stage)
  {
    match stage
    case ToSync => false
    case ToClose(syncOk) => !syncOk
    case ToFinish(syncOk, closeOk) => !syncOk || !closeOk
  }

  /** `open`'s look at the log's end works or has nothing to report, an `open` of a writer in use does
      not fail both fstat and close, and no append begins between another's failure and the flag that
      announces it. */
  predicate Careful(s: Sys, step: Step)
  {
    match step
    case Open(_, e) => (e.probeOk || EndsLine(s.w.log)) && (s.ready ==> e.statOk || e.close.Closed?)
    case Begin(_, _, _) => !Unflagged(s)
    case _ => true
  }

  ghost predicate CarefulRun(steps: seq<Step>)
  {
    forall k | 0 <= k < |steps| ::
      After(steps[..k]).Some? ==> Careful(After(steps[..k]).value, steps[k])
  }

  /** An open line is announced to the next append. */
  predicate Announced(s: Sys)
  {
    s.glued == {} &&
    (s.up && s.ready && !Unflagged(s) && !s.w.failed ==> EndsLine(s.w.log) || s.w.needsNewline)
  }

  lemma StepAnnounces(s: Sys, step: Step)
    requires Inv(s) && Enabled(s, step) && Careful(s, step) && Announced(s)
    ensures Announced(Apply(s, step))
  {
    hide ApplyOpen, ApplyBegin, ToManifestLine, Lossy, LogOf, Truncate, Wf, Apart, AppendAccepts, Whole;
    match step {
      case Start =>
      case Open(writer, e) => OpenAnnounces(s, writer, e);
      case Begin(writer, r, e) => BeginAnnounces(s, writer, r, e);
      case Sync(i, sync) => SyncAnnounces(s, i, sync);
      case Close(i, close) => CloseAnnounces(s, i, close);
      case Finish(i, dirs) => FinishAnnounces(s, i, dirs);
      case Crash(kept) =>
    }
  }

  lemma OpenAnnounces(s: Sys, writer: string, e: OpenEnv)
    requires Inv(s) && s.up && Announced(s) && Careful(s, Open(writer, e))
    ensures Announced(ApplyOpen(s, writer, e))
  {
    hide ToManifestLine, ViewAfter, Wf, Apart, LogOf, Truncate, AppendAccepts, Whole;
    var t := ApplyOpen(s, writer, e);
    var text := OpenText(s.w, writer, e);
    if s.w.log == "" && Written(e.writes, |text|) == |text| { assert text[..|text|] == text; }
    if Unflagged(s) {
      var i :| i in s.flights && Lossy(s.flights[i].stage);
      assert i in t.flights && Lossy(t.flights[i].stage);
    }
  }

  lemma BeginAnnounces(s: Sys, writer: string, r: Record, e: AppendEnv)
    requires Inv(s) && s.up && s.ready && Announced(s) && !Unflagged(s)
    ensures Announced(ApplyBegin(s, writer, r, e))
  {
    hide ToManifestLine, ViewAfter, Wf, Apart, LogOf, Truncate, AppendAccepts, Whole;
    var b := BeginStep(s.w, writer, r, e);
    var text := AppendText(s.w, writer, r, e);
    if b.flight.Some? && b.flight.value.written { assert text[..|text|] == text; }
  }

  lemma SyncAnnounces(s: Sys, i: nat, sync: SyncResult)
    requires Sane(s.w) && Announced(s) && Enabled(s, Sync(i, sync))
    ensures Announced(Apply(s, Sync(i, sync)))
  {
    hide LogOf, Truncate;
    var t := Apply(s, Sync(i, sync));
    assert sync.SyncFailed? ==> i in t.flights && Lossy(t.flights[i].stage);
    forall j | j in s.flights && Lossy(s.flights[j].stage) ensures j in t.flights && Lossy(t.flights[j].stage) {}
  }

  lemma CloseAnnounces(s: Sys, i: nat, close: CloseResult)
    requires Sane(s.w) && Announced(s) && Enabled(s, Close(i, close))
    ensures Announced(Apply(s, Close(i, close)))
  {
    hide LogOf, Truncate;
    var t := Apply(s, Close(i, close));
    assert close.CloseFailed? ==> i in t.flights && Lossy(t.flights[i].stage);
    forall j | j in s.flights && Lossy(s.flights[j].stage) ensures j in t.flights && Lossy(t.flights[j].stage) {}
  }

  lemma FinishAnnounces(s: Sys, i: nat, dirs: bool)
    requires Sane(s.w) && Announced(s) && Enabled(s, Finish(i, dirs))
    ensures Announced(Apply(s, Finish(i, dirs)))
  {
    hide LogOf, Truncate;
    var t := Apply(s, Finish(i, dirs));
    forall j | j in s.flights && j != i && Lossy(s.flights[j].stage)
      ensures j in t.flights && Lossy(t.flights[j].stage) {}
  }

  lemma {:induction false} AnnouncedReachable(steps: seq<Step>, s: Sys)
    requires After(steps) == Some(s) && CarefulRun(steps)
    ensures Announced(s)
    decreases |steps|
  {
    hide Inv, Apply, Enabled, Careful, Announced;
    if steps == [] {
      AnnouncedInit();
    } else {
      var n := |steps| - 1;
      var t := After(steps[..n]).value;
      assert forall k | 0 <= k < n :: steps[..n][..k] == steps[..k];
      AnnouncedReachable(steps[..n], t);
      InvReachable(steps[..n], t);
      StepAnnounces(t, steps[n]);
    }
  }

  lemma AnnouncedInit()
    ensures Announced(INIT)
  {
  }

  /** In a careful run no record is glued, so every acknowledged readable record is read. */
  lemma CarefulRunsLoseNothing(steps: seq<Step>, s: Sys) returns (ids: seq<nat>)
    requires After(steps) == Some(s) && CarefulRun(steps)
    ensures s.glued == {}
    ensures StrictlyIncreasing(ids) && forall a | 0 <= a < |ids| :: ids[a] < |s.att|
    ensures Records(s.w.log) == RecordsOfAttempts(ids, s.att)
    ensures forall i | i in s.acked :: i < |s.att| && (Readable(s.att[i]) ==> i in ids)
  {
    AnnouncedReachable(steps, s);
    ids := AcknowledgedRecordsAreRead(steps, s);
  }

  /** A caller that waits for each append to return before the next is careful. */
  lemma OneAtATimeIsCareful(steps: seq<Step>)
    requires forall k | 0 <= k < |steps| && After(steps[..k]).Some? ::
               var t := After(steps[..k]).value;
               (steps[k].Begin? ==> t.flights == map[]) && (steps[k].Open? ==> Careful(t, steps[k]))
    ensures CarefulRun(steps)
  {
    hide After;
  }
}
