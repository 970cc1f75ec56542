/** What `open`'s look at the log's last byte is worth. When that probe fails, `open` still answers
    CL_SUCCESS with `theLogNeedsNewline` false; the next record is then glued to whatever line was
    left open, and is lost although its append succeeds. */
module ManifestProbe {
  import opened Text
  import opened ManifestRecord
  import opened ManifestLog
  import opened ManifestHistory
  import opened ManifestWriter

  /** After a successful open the next append starts on a line of its own exactly when the probe
      worked or no line was open. */
  lemma OpenLearnsTheEnd(s: State, writer: string, e: OpenEnv)
    requires Sane(s) && OpenStep(s, writer, e).1 == SUCCESS
    ensures var t := OpenStep(s, writer, e).0;
            (t.needsNewline || EndsLine(t.log)) <==> (e.probeOk || EndsLine(s.log))
  {
    hide ToManifestLine;
    var text := OpenText(s, writer, e);
    assert text[..|text|] == text;
    if s.log == "" { assert EndsLine(text); } else { assert s.log + "" == s.log; }
  }

  /** Everything up to and including the newline an append writes first. */
  function Settled(s: State): string { s.log + (if s.needsNewline then "\n" else "") }

  function Contribution(r: Record): seq<Record> { if Readable(r) then [Canonical(r)] else [] }

  lemma AcknowledgedText(s: State, writer: string, r: Record, e: AppendEnv, sync: SyncResult, close: CloseResult,
                         dirs: bool)
    requires Sane(s) && s.log != "" && AppendStep(s, writer, r, e, sync, close, dirs).1 == SUCCESS
    ensures AppendStep(s, writer, r, e, sync, close, dirs).0.log == Settled(s) + (ToManifestLine(r) + "\n")
    ensures AppendAccepts(r)
  {
    hide ToManifestLine;
    var text := AppendText(s, writer, r, e);
    assert text[..|text|] == text;
    if s.needsNewline {
      assert s.log + text == s.log + "\n" + (ToManifestLine(r) + "\n");
    } else {
      assert text == ToManifestLine(r) + "\n";
      assert s.log + "" == s.log;
    }
  }

  lemma RecordsOfRecordLine(r: Record)
    requires AppendAccepts(r)
    ensures Records(ToManifestLine(r) + "\n") == Contribution(r)
  {
    hide ToManifestLine, Records, ParseManifestLine;
    LineIsOneLine(r);
    OneLine(ToManifestLine(r));
    ParseOfLine(r);
  }

  /** An acknowledged record is read back exactly when it was not glued to an open line: with the
      line settled it comes last, and otherwise a reader gets no more than before. */
  lemma AcknowledgedRecordIsReadExactlyWhen(s: State, v: View, att: seq<Record>, writer: string, r: Record,
                                            e: AppendEnv, sync: SyncResult, close: CloseResult, dirs: bool)
    requires Sane(s) && s.log != "" && s.log == LogOf(v) && Wf(v, att)
    requires AppendStep(s, writer, r, e, sync, close, dirs).1 == SUCCESS
    ensures var after := Records(AppendStep(s, writer, r, e, sync, close, dirs).0.log);
            if s.needsNewline || EndsLine(s.log) then after == Records(Settled(s)) + Contribution(r)
            else after == Records(s.log)
  {
    hide ToManifestLine, Records, LogOf, Wf, AppendStep, EndsLine;
    AcknowledgedText(s, writer, r, e, sync, close, dirs);
    if s.needsNewline || EndsLine(s.log) {
      SettledEnds(s);
      RecordsConcat(Settled(s), ToManifestLine(r) + "\n");
      RecordsOfRecordLine(r);
    } else {
      assert Settled(s) == s.log + "" == s.log;
      GluedAppendAddsNothing(v, att, r);
    }
  }

  lemma SettledEnds(s: State)
    requires s.needsNewline || EndsLine(s.log)
    ensures EndsLine(Settled(s))
  {
    if !s.needsNewline { assert s.log + "" == s.log; }
  }

  lemma GluedAppendAddsNothing(v: View, att: seq<Record>, r: Record)
    requires Wf(v, att) && !EndsLine(LogOf(v))
    ensures Records(LogOf(v) + (ToManifestLine(r) + "\n")) == Records(LogOf(v))
  {
    hide ToManifestLine, ParseManifestLine, Lines, RecordsOfLines, LineText, PartOk;
    var text := LineText(v.open);
    var line := ToManifestLine(r);
    assert v.open == LinesOf(v)[|v.done|];
    UnlinesEnds(v.done);
    NoText(v.open, att);
    assert v.open == [] ==> LogOf(v) == Unlines(v.done) by { EmptyText(); }
    LineHasNoNewline(v.open, att);
    LineIsOneLine(r);
    RecordsIgnoreTail(Unlines(v.done), text);
    assert LogOf(v) + (line + "\n") == Unlines(v.done) + (text + line + "\n" + "");
    RecordsConcat(Unlines(v.done), text + line + "\n" + "");
    LinesCons(text + line, "");
    LinesNone("");
    OpenLineThenRecord(v.open, att, r);
    OneUnreadableLine(text + line);
  }

  lemma OneUnreadableLine(line: string)
    requires ParseManifestLine(line).None?
    ensures RecordsOfLines([line] + []) == []
  {
    hide ParseManifestLine;
    assert ([line] + [])[1..] == [];
  }

  lemma OpenLineThenRecord(l: Line, att: seq<Record>, r: Record)
    requires LineOk(l, att) && l != []
    ensures ParseManifestLine(LineText(l) + ToManifestLine(r)).None?
  {
    hide ToManifestLine, ParseManifestLine, LineText, PartOk;
    var p := Part(ToManifestLine(r), Attempt(|att|));
    LineIsOneLine(r);
    TextGrows(l, p);
    forall a | 0 <= a < |l| ensures StartsALine(Texts(l + [p])[a]) { PartIsOneLine(l[a], att); }
    assert StartsALine(Texts(l + [p])[|l|]);
    assert LineText(l + [p]) == Join(Texts(l + [p])) by { JoinOfTexts(l + [p]); }
    TornThenGluedIsUnreadable(Texts(l + [p]));
  }

  lemma JoinOfTexts(l: Line)
    ensures LineText(l) == Join(Texts(l))
  {
  }

  function HeaderOnly(now: uint64): Line
  {
    [Part(ToManifestLine(HeaderRecord("w", now)), Header(HeaderRecord("w", now)))]
  }

  lemma HeaderBytes(now: uint64)
    ensures Unlines([HeaderOnly(now)]) == HeaderLine("w", now) && HeaderLine("w", now) != ""
    ensures EndsLine(HeaderLine("w", now))
  {
    hide ToManifestLine;
    var l := HeaderOnly(now);
    TextStep(l);
    EmptyText();
    var none: seq<Line> := [];
    assert none + [l] == [l] && l[1..] == [] && l[0].text + "" == l[0].text;
    assert [l][..0] == none && Unlines(none) == "";
  }

  lemma TornLog(now: uint64, r: Record)
    requires AppendAccepts(r)
    ensures var v := View([HeaderOnly(now)], [Part("{", Attempt(0))]);
            LogOf(v) == HeaderLine("w", now) + "{" && Wf(v, [r]) && Shown(v.done, [r]) == []
  {
    hide ToManifestLine;
    var open := [Part("{", Attempt(0))];
    HeaderBytes(now);
    LineStart(r);
    LineIsOneLine(HeaderRecord("w", now));
    TextStep(open);
    EmptyText();
    assert open[1..] == [] && open[0].text + "" == "{";
    var none: seq<Line> := [];
    assert [HeaderOnly(now)][..0] == none && Shown(none, [r]) == [];
  }

  /** Such a log exists: a header, the first byte of a lost append, a restart whose probe fails. */
  lemma UnprobedOpenLosesARecord(r: Record, now: uint64)
    requires AppendAccepts(r) && Readable(r)
    ensures var torn := State(HeaderLine("w", now) + "{", |HeaderLine("w", now)|, false, false);
            var open := OpenEnv(true, true, true, now, [], Synced, Closed, false, true);
            var (s, opened') := OpenStep(torn, "w", open);
            var text := |AppendText(s, "w", r, AppendEnv(Opened, true, now, []))|;
            var e := AppendEnv(Opened, true, now, [Wrote(text)]);
            var (t, appended) := AppendStep(s, "w", r, e, Synced, Closed, true);
            opened' == SUCCESS && appended == SUCCESS && Records(t.log) == []
  {
    hide ToManifestLine, Records, Wf, LogOf, Shown, HeaderOnly;
    var torn := State(HeaderLine("w", now) + "{", |HeaderLine("w", now)|, false, false);
    var (s, _) := OpenStep(torn, "w", OpenEnv(true, true, true, now, [], Synced, Closed, false, true));
    var e := AppendEnv(Opened, true, now, [Wrote(|AppendText(s, "w", r, AppendEnv(Opened, true, now, []))|)]);
    assert torn.log + "" == torn.log;
    var v := View([HeaderOnly(now)], [Part("{", Attempt(0))]);
    TornLog(now, r);
    assert AppendText(s, "w", r, AppendEnv(Opened, true, now, [])) == AppendText(s, "w", r, e);
    AcknowledgedRecordIsReadExactlyWhen(s, v, [r], "w", r, e, Synced, Closed, true);
    RecordsOfLog(v, [r]);
  }
}
