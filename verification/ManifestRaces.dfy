/** Two runs that lose an acknowledged record: one that is not careful, and one in which a lost write
    goes unreported. Both start from a log that holds a synced header and nothing else. */
module ManifestRaces {
  import opened Text
  import opened ManifestRecord
  import opened ManifestLog
  import opened ManifestHistory
  import opened ManifestProbe
  import opened ManifestWriter
  import opened ManifestRun

  function Full(now: uint64, n: nat): AppendEnv { AppendEnv(Opened, true, now, [Wrote(n)]) }

  /** A first open whose every call succeeds. */
  function FirstOpen(now: uint64): Step
  {
    Open("w", OpenEnv(true, true, true, now, [Wrote(|HeaderLine("w", now)|)], Synced, Closed, true, true))
  }

  /** The system once that open is over. */
  function OnlyHeader(now: uint64): Sys
  {
    var h := HeaderLine("w", now);
    Sys(State(h, |h|, false, false), true, true, map[], [], {}, {}, View([HeaderOnly(now)], []))
  }

  lemma Extend(steps: seq<Step>, k: nat, s: Sys)
    requires k < |steps| && After(steps[..k]) == Some(s) && Enabled(s, steps[k])
    ensures After(steps[..k + 1]) == Some(Apply(s, steps[k]))
  {
    hide Apply, Enabled;
    assert steps[..k + 1][..k] == steps[..k];
  }

  lemma WrittenAll(n: nat)
    ensures Written([Wrote(n)], n) == n
  {
  }

  lemma FullLine(v: View, line: string, tag: Tag)
    requires line != ""
    ensures ViewAfter(v, false, line, tag, |line| + 1) == View(v.done + [v.open + [Part(line, tag)]], [])
  {
  }

  lemma OpenFirst(steps: seq<Step>, now: uint64)
    requires |steps| >= 2 && steps[0] == Start && steps[1] == FirstOpen(now)
    ensures After(steps[..2]) == Some(OnlyHeader(now))
  {
    hide ToManifestLine, Apply, Enabled;
    assert steps[..0] == [];
    StartFirst();
    Extend(steps, 0, INIT);
    HeaderFirst(now);
    Extend(steps, 1, INIT.(up := true));
  }

  lemma StartFirst()
    ensures Enabled(INIT, Start) && Apply(INIT, Start) == INIT.(up := true)
  {
  }

  lemma HeaderFirst(now: uint64)
    ensures Enabled(INIT.(up := true), FirstOpen(now)) && Apply(INIT.(up := true), FirstOpen(now)) == OnlyHeader(now)
  {
    hide ToManifestLine, LogOf, Truncate;
    var h := HeaderLine("w", now);
    LineIsOneLine(HeaderRecord("w", now));
    WrittenAll(|h|);
    assert h[..|h|] == h && "" + h == h;
    var line := ToManifestLine(HeaderRecord("w", now));
    var v := ViewAfter(View([], []), false, line, Header(HeaderRecord("w", now)), |h|);
    FullLine(View([], []), line, Header(HeaderRecord("w", now)));
    assert [] + HeaderOnly(now) == HeaderOnly(now) && [] + [HeaderOnly(now)] == [HeaderOnly(now)];
    assert v == View([HeaderOnly(now)], []);
  }

  function BeginFull(now: uint64, r: Record): Step { Begin("w", r, Full(now, |ToManifestLine(r)| + 1)) }

  /** An append that writes its whole line where no newline was asked for. */
  function WithLine(s: Sys, r: Record): Sys
  {
    var i := |s.att|;
    s.(w := s.w.(log := s.w.log + (ToManifestLine(r) + "\n")), att := s.att + [r],
       flights := s.flights[i := InFlight(Flight(true, false), false, ToSync)],
       glued := if EndsLine(s.w.log) then s.glued else s.glued + {i},
       view := View(s.view.done + [s.view.open + [Part(ToManifestLine(r), Attempt(i))]], []))
  }

  lemma BeginWrites(s: Sys, now: uint64, r: Record)
    requires Sane(s.w) && s.up && s.ready && !s.w.failed && !s.w.needsNewline && s.w.log != "" && AppendAccepts(r)
    ensures Enabled(s, BeginFull(now, r)) && Apply(s, BeginFull(now, r)) == WithLine(s, r)
  {
    hide ToManifestLine, LogOf, Truncate, EndsLine, ViewAfter;
    var line := ToManifestLine(r);
    LineIsOneLine(r);
    WrittenAll(|line| + 1);
    assert "" + (line + "\n") == line + "\n" && (line + "\n")[..|line| + 1] == line + "\n";
    FullLine(s.view, line, Attempt(|s.att|));
  }

  /** Append 0 loses all of its line but the first byte to a failed sync. Before it latches the
      writer, append 1 begins, syncs, closes and returns CL_SUCCESS. */
  function BeginBeforeTheFlag(now: uint64, a: Record, b: Record): seq<Step>
  {
    var kept := |HeaderLine("w", now)| + 1;
    [Start, FirstOpen(now), BeginFull(now, a), Sync(0, SyncFailed(kept)), Close(0, Closed),
     BeginFull(now, b), Sync(1, Synced), Close(1, Closed), Finish(1, true)]
  }

  /** Append 0's stump, just before append 1 begins. */
  function Stump(now: uint64, a: Record): Sys
  {
    var h := HeaderLine("w", now);
    Sys(State((h + (ToManifestLine(a) + "\n"))[..|h| + 1], |h|, false, false), true, true,
        map[0 := InFlight(Flight(true, false), true, ToFinish(false, true))], [a], {}, {},
        View([HeaderOnly(now)], [Part(ToManifestLine(a)[..1], Attempt(0))]))
  }

  /** What is left of the header and one whole line behind it. */
  lemma CutBack(now: uint64, a: Record, k: nat)
    requires k <= |ToManifestLine(a)|
    ensures var l := [Part(ToManifestLine(a), Attempt(0))];
            var v := View([HeaderOnly(now), l], []);
            var n := |HeaderLine("w", now)| + k;
            |LogOf(v)| == |HeaderLine("w", now)| + |ToManifestLine(a)| + 1 &&
            Truncate(v, n) == View([HeaderOnly(now)], Cut(l, k))
  {
    hide ToManifestLine, HeaderOnly, Cut;
    var l := [Part(ToManifestLine(a), Attempt(0))];
    var v := View([HeaderOnly(now), l], []);
    HeaderBytes(now);
    TextStep(l);
    EmptyText();
    assert l[1..] == [] && [HeaderOnly(now), l][..1] == [HeaderOnly(now)];
  }

  lemma StumpReached(now: uint64, a: Record, b: Record)
    requires AppendAccepts(a)
    ensures After(BeginBeforeTheFlag(now, a, b)[..5]) == Some(Stump(now, a))
  {
    hide ToManifestLine, Apply, Enabled, After;
    var steps := BeginBeforeTheFlag(now, a, b);
    OpenFirst(steps, now);
    HeaderBytes(now);
    BeginWrites(OnlyHeader(now), now, a);
    Extend(steps, 2, OnlyHeader(now));
    LoseStump(now, a);
    var s := WithLine(OnlyHeader(now), a);
    Extend(steps, 3, s);
    Extend(steps, 4, Apply(s, steps[3]));
  }

  lemma FirstAppendView(now: uint64, a: Record)
    ensures WithLine(OnlyHeader(now), a).view == View([HeaderOnly(now), [Part(ToManifestLine(a), Attempt(0))]], [])
  {
    hide ToManifestLine, HeaderOnly;
    var none: Line := [];
    var l := [Part(ToManifestLine(a), Attempt(0))];
    assert none + l == l;
  }

  lemma LoseStump(now: uint64, a: Record)
    ensures var s := WithLine(OnlyHeader(now), a);
            var sync := Sync(0, SyncFailed(|HeaderLine("w", now)| + 1));
            Enabled(s, sync) && Enabled(Apply(s, sync), Close(0, Closed)) &&
            Apply(Apply(s, sync), Close(0, Closed)) == Stump(now, a)
  {
    hide ToManifestLine, HeaderLine, LogOf, Truncate, EndsLine, HeaderOnly;
    LineIsOneLine(a);
    CutBack(now, a, 1);
    FirstAppendView(now, a);
    var l := [Part(ToManifestLine(a), Attempt(0))];
    assert Cut(l, 1) == [Part(ToManifestLine(a)[..1], Attempt(0))];
    var s := WithLine(OnlyHeader(now), a);
    var sync := Sync(0, SyncFailed(|HeaderLine("w", now)| + 1));
    HeaderBytes(now);
    assert s.flights == map[0 := InFlight(Flight(true, false), false, ToSync)];
    assert Apply(s, sync).flights == map[0 := InFlight(Flight(true, false), true, ToClose(false))];
  }

  /** The system in which append 1 has returned. */
  function Returned(now: uint64, a: Record, b: Record): Sys
  {
    var s := WithLine(Stump(now, a), b);
    s.(w := s.w.(synced := |s.w.log|), flights := map[0 := InFlight(Flight(true, false), true, ToFinish(false, true))],
       acked := {1})
  }

  lemma SecondReturns(now: uint64, a: Record, b: Record)
    ensures var s := WithLine(Stump(now, a), b);
            Enabled(s, Sync(1, Synced)) &&
            var t := Apply(s, Sync(1, Synced));
            Enabled(t, Close(1, Closed)) &&
            var u := Apply(t, Close(1, Closed));
            Enabled(u, Finish(1, true)) && Apply(u, Finish(1, true)) == Returned(now, a, b)
  {
    hide ToManifestLine, HeaderLine, LogOf, Truncate, EndsLine, HeaderOnly;
    var s := WithLine(Stump(now, a), b);
    var u := Apply(Apply(s, Sync(1, Synced)), Close(1, Closed));
    assert u.flights - {1} == map[0 := InFlight(Flight(true, false), true, ToFinish(false, true))];
    assert u.acked + {1} == {1};
  }

  lemma BeginBeforeTheFlagReached(now: uint64, a: Record, b: Record)
    requires AppendAccepts(a) && AppendAccepts(b)
    ensures After(BeginBeforeTheFlag(now, a, b)) == Some(Returned(now, a, b))
  {
    hide ToManifestLine, HeaderLine, HeaderOnly, Apply, Possible, Reported, After, AppendAccepts;
    var steps := BeginBeforeTheFlag(now, a, b);
    StumpReached(now, a, b);
    HeaderBytes(now);
    BeginWrites(Stump(now, a), now, b);
    SecondReturns(now, a, b);
    var s := WithLine(Stump(now, a), b);
    Extend(steps, 5, Stump(now, a));
    Extend(steps, 6, s);
    Extend(steps, 7, Apply(s, steps[6]));
    Extend(steps, 8, Apply(Apply(s, steps[6]), steps[7]));
    assert steps[..9] == steps;
  }

  /** That run can happen, and a reader of its log gets nothing although append 1 was acknowledged. */
  lemma BeginBeforeTheFlagLosesARecord(now: uint64, a: Record, b: Record)
    requires AppendAccepts(a) && AppendAccepts(b) && Readable(b)
    ensures var s := After(BeginBeforeTheFlag(now, a, b));
            s.Some? && s.value.acked == {1} && s.value.att == [a, b] && 1 in s.value.glued &&
            Records(s.value.w.log) == []
  {
    hide ToManifestLine, After, Readable, AppendAccepts, Records, Apply, Enabled;
    var steps := BeginBeforeTheFlag(now, a, b);
    BeginBeforeTheFlagReached(now, a, b);
    InvReachable(steps, Returned(now, a, b));
    GluedShowsNothing(now, a, b);
    RecordsOfLog(Returned(now, a, b).view, [a, b]);
    var ids := AcknowledgedRecordsAreRead(steps, Returned(now, a, b));
  }

  lemma GluedShowsNothing(now: uint64, a: Record, b: Record)
    ensures Shown(Returned(now, a, b).view.done, [a, b]) == []
  {
    hide ToManifestLine;
    var done := Returned(now, a, b).view.done;
    assert |done| == 2 && |done[1]| == 2 && done[..1] == [HeaderOnly(now)];
    var none: seq<Line> := [];
    assert done[..1][..0] == none && Shown(none, [a, b]) == [];
  }

  /* ---- a loss that another descriptor does not report ---- */

  /** Appends 0 and 1 write their lines, and append 0's failed sync loses both. */
  function LoseBoth(now: uint64, a: Record, b: Record): seq<Step>
  {
    [Start, FirstOpen(now), BeginFull(now, a), BeginFull(now, b), Sync(0, SyncFailed(|HeaderLine("w", now)|))]
  }

  function BothLost(now: uint64, a: Record, b: Record): Sys
  {
    var h := HeaderLine("w", now);
    var f := Flight(true, false);
    Sys(State(h, |h|, false, false), true, true,
        map[0 := InFlight(f, true, ToClose(false)), 1 := InFlight(f, true, ToSync)],
        [a, b], {}, {}, View([HeaderOnly(now)], []))
  }

  lemma CutBoth(now: uint64, a: Record, b: Record)
    ensures var l, m := [Part(ToManifestLine(a), Attempt(0))], [Part(ToManifestLine(b), Attempt(1))];
            var v := View([HeaderOnly(now), l, m], []);
            var n := |HeaderLine("w", now)|;
            n < |LogOf(v)| && Truncate(v, n) == View([HeaderOnly(now)], [])
  {
    hide ToManifestLine, HeaderOnly, LineText;
    var l := [Part(ToManifestLine(a), Attempt(0))];
    var m := [Part(ToManifestLine(b), Attempt(1))];
    HeaderBytes(now);
    CutBack(now, a, 0);
    EmptyText();
    var v := View([HeaderOnly(now), l, m], []);
    var u := View([HeaderOnly(now), l], []);
    assert v.done[..2] == u.done;
  }

  lemma BothWritten(now: uint64, a: Record, b: Record)
    ensures WithLine(WithLine(OnlyHeader(now), a), b).view ==
            View([HeaderOnly(now), [Part(ToManifestLine(a), Attempt(0))], [Part(ToManifestLine(b), Attempt(1))]], [])
  {
    hide ToManifestLine, HeaderOnly;
    FirstAppendView(now, a);
    var none: Line := [];
    var m := [Part(ToManifestLine(b), Attempt(1))];
    assert none + m == m;
  }

  lemma LoseTwo(now: uint64, a: Record, b: Record)
    ensures var s := WithLine(WithLine(OnlyHeader(now), a), b);
            var sync := Sync(0, SyncFailed(|HeaderLine("w", now)|));
            Enabled(s, sync) && Apply(s, sync) == BothLost(now, a, b)
  {
    hide ToManifestLine, HeaderLine, LogOf, Truncate, EndsLine, HeaderOnly;
    CutBoth(now, a, b);
    BothWritten(now, a, b);
    HeaderBytes(now);
    var s := WithLine(WithLine(OnlyHeader(now), a), b);
    EndsWithNewline(HeaderLine("w", now), ToManifestLine(a));
    var f := Flight(true, false);
    assert s.flights == map[0 := InFlight(f, false, ToSync), 1 := InFlight(f, false, ToSync)];
    assert s.w.log[..|HeaderLine("w", now)|] == HeaderLine("w", now);
  }

  lemma EndsWithNewline(h: string, line: string)
    ensures EndsLine(h + (line + "\n"))
  {
  }

  lemma LoseBothReached(now: uint64, a: Record, b: Record)
    requires AppendAccepts(a) && AppendAccepts(b)
    ensures After(LoseBoth(now, a, b)) == Some(BothLost(now, a, b))
  {
    hide ToManifestLine, HeaderLine, HeaderOnly, Apply, Possible, Reported, After, AppendAccepts;
    var steps := LoseBoth(now, a, b);
    OpenFirst(steps, now);
    HeaderBytes(now);
    BeginWrites(OnlyHeader(now), now, a);
    Extend(steps, 2, OnlyHeader(now));
    BeginWrites(WithLine(OnlyHeader(now), a), now, b);
    Extend(steps, 3, WithLine(OnlyHeader(now), a));
    LoseTwo(now, a, b);
    Extend(steps, 4, WithLine(WithLine(OnlyHeader(now), a), b));
    assert steps[..5] == steps;
  }

  /** Were append 1's own sync to succeed all the same, it would be acknowledged and its record be
      nowhere, though it was written on a line of its own. */
  lemma UnreportedLossLosesARecord(now: uint64, a: Record, b: Record)
    requires AppendAccepts(a) && AppendAccepts(b)
    ensures After(LoseBoth(now, a, b)) == Some(BothLost(now, a, b))
    ensures var s := BothLost(now, a, b);
            Possible(s, Sync(1, Synced)) && !Reported(s, Sync(1, Synced)) &&
            var t := Apply(s, Sync(1, Synced));
            Possible(t, Close(1, Closed)) &&
            var u := Apply(t, Close(1, Closed));
            Possible(u, Finish(1, true)) &&
            var v := Apply(u, Finish(1, true));
            v.acked == {1} && v.glued == {} && Records(v.w.log) == []
  {
    hide ToManifestLine, HeaderLine, Records, LogOf, Truncate, EndsLine, HeaderOnly, After, AppendAccepts;
    LoseBothReached(now, a, b);
    HeaderHasNoRecord(now);
    var u := Apply(Apply(BothLost(now, a, b), Sync(1, Synced)), Close(1, Closed));
    assert u.acked + {1} == {1};
  }

  lemma HeaderHasNoRecord(now: uint64)
    ensures Records(HeaderLine("w", now)) == []
  {
    hide ToManifestLine, Records, ParseManifestLine;
    var h := HeaderRecord("w", now);
    LineIsOneLine(h);
    OneLine(ToManifestLine(h));
    ParseOfLine(h);
  }
}
