/** What `open` and `append` answer, exactly, and what they leave behind when they answer CL_SUCCESS. */
module ManifestAnswers {
  import opened Text
  import opened Json
  import opened JsonScanner
  import opened ManifestRecord
  import opened ManifestWriter

  /* ---- writing all of a buffer ---- */

  /** The bytes these writes get out, interruptions aside. */
  function Total(results: seq<WriteResult>): nat
  {
    if results == [] then 0 else (if results[0].Wrote? then results[0].n else 0) + Total(results[1..])
  }

  /** Some first writes get out `len` bytes between them before one fails; an interruption is no failure. */
  predicate Delivers(results: seq<WriteResult>, len: nat)
  {
    len == 0 || exists k :: 0 <= k <= |results| && WriteError !in results[..k] && Total(results[..k]) >= len
  }

  lemma DeliversStep(results: seq<WriteResult>, len: nat)
    requires results != [] && len > 0
    ensures var m := if results[0].Wrote? then results[0].n else 0;
            Delivers(results, len) <==>
            results[0] != WriteError && Delivers(results[1..], if m < len then len - m else 0)
  {
    var m := if results[0].Wrote? then results[0].n else 0;
    if k :| 0 <= k <= |results| && WriteError !in results[..k] && Total(results[..k]) >= len {
      assert k > 0;
      assert results[..k][0] == results[0] && results[..k][1..] == results[1..][..k - 1];
      assert results[..k] == [results[0]] + results[1..][..k - 1];
    }
    if k :| 0 <= k <= |results[1..]| && WriteError !in results[1..][..k] && Total(results[1..][..k]) >= len - m {
      assert results[..k + 1] == [results[0]] + results[1..][..k];
      assert results[..k + 1][1..] == results[1..][..k];
    }
    if m >= len { assert results[..1] == [results[0]] && results[..1][1..] == []; }
  }

  lemma {:induction false} WrittenInFullExactly(results: seq<WriteResult>, len: nat)
    ensures Written(results, len) == len <==> Delivers(results, len)
    decreases |results|
  {
    hide Delivers;
    if len == 0 || results == [] {
      NothingToDeliver(results, len);
    } else {
      var m := if results[0].Wrote? then results[0].n else 0;
      DeliversStep(results, len);
      WrittenInFullExactly(results[1..], if m < len then len - m else 0);
    }
  }

  lemma NothingToDeliver(results: seq<WriteResult>, len: nat)
    requires len == 0 || results == []
    ensures Delivers(results, len) <==> len == 0
  {
  }

  /* ---- open ---- */

  /** Open succeeds exactly when nothing it does fails: the header is written only into an empty log. The
      log is then the old one, or the header if there was none, and all of it is synced. */
  lemma OpenSucceedsExactlyWhen(s: State, writer: string, e: OpenEnv)
    requires Sane(s)
    ensures var (t, code) := OpenStep(s, writer, e);
            (code == SUCCESS <==>
               e.directoryOk && e.fdOk && e.statOk && e.sync.Synced? && e.close.Closed? && e.directoriesSynced &&
               (s.log == "" ==> Delivers(e.writes, |HeaderLine(writer, e.now)|))) &&
            (code != SUCCESS ==> code == ERR_UNKNOWN) &&
            (code == SUCCESS ==>
               t.log == (if s.log == "" then HeaderLine(writer, e.now) else s.log) && t.synced == |t.log| &&
               t.failed == s.failed)
  {
    hide Delivers, ToManifestLine, Written;
    var text := OpenText(s, writer, e);
    WrittenInFullExactly(e.writes, |text|);
    assert text[..|text|] == text && s.log + "" == s.log && "" + text == text;
    if text == "" { NothingToDeliver(e.writes, 0); }
  }

  /* ---- append ---- */

  /** The record's numbers can be read back, as far as the guard looks. */
  predicate NumbersOk(r: Record)
  {
    r.start < 0x8000_0000_0000_0000 && r.end < 0x8000_0000_0000_0000 && r.events < 0x8000_0000_0000_0000 &&
    (r.incarnationBound == 0xFFFF_FFFF_FFFF_FFFF ||
     (r.incarnationBound < 0x8000_0000_0000_0000 && r.writerStart < 0x8000_0000_0000_0000))
  }

  /** What an append that writes all it set out to adds to the log. */
  function Added(s: State, writer: string, r: Record, e: AppendEnv): string
  {
    (if s.log == "" && e.statOk then HeaderLine(writer, e.now) else "") +
    ((if s.needsNewline && !(s.log == "" && e.statOk) then "\n" else "") + (ToManifestLine(r) + "\n"))
  }

  /** An append succeeds exactly when its numbers fit, no earlier failure has latched the writer, the log
      could be opened, at once or after its directory was made again, and nothing it does fails; a log it
      began has to have its directories synced as well. What it then leaves behind is the old log and what
      it adds, all of it synced. */
  lemma AppendSucceedsExactlyWhen(s: State, writer: string, r: Record, e: AppendEnv, sync: SyncResult,
                                  close: CloseResult, dirs: bool)
    requires Sane(s)
    ensures var (t, code) := AppendStep(s, writer, r, e, sync, close, dirs);
            (code == ERR_INVALID_ARG <==> !NumbersOk(r)) &&
            (code == SUCCESS <==>
               NumbersOk(r) && !s.failed &&
               (e.fd == Opened || (e.fd.Missing? && e.fd.directoryMade && e.fd.reopened)) &&
               Delivers(e.writes, |Added(s, writer, r, e)|) && sync.Synced? && close.Closed? &&
               (s.log == "" && e.statOk ==> dirs)) &&
            (code == SUCCESS ==>
               t == State(s.log + Added(s, writer, r, e), |t.log|, false, false))
  {
    hide Delivers, ToManifestLine, Written;
    var text := AppendText(s, writer, r, e);
    assert text == Added(s, writer, r, e) by { SameText(s, writer, r, e); }
    WrittenInFullExactly(e.writes, |text|);
    assert text[..|text|] == text;
  }

  lemma SameText(s: State, writer: string, r: Record, e: AppendEnv)
    ensures AppendText(s, writer, r, e) == Added(s, writer, r, e)
  {
    hide ToManifestLine;
    var line := ToManifestLine(r) + "\n";
    assert "" + line == line && HeaderLine(writer, e.now) + ("" + line) == HeaderLine(writer, e.now) + line;
    assert "" + ("\n" + line) == "\n" + line && "" + ("" + line) == line;
  }

  /** Once latched the writer takes nothing more: every later append leaves the log alone and fails. */
  lemma LatchedForGood(s: State, writer: string, r: Record, e: AppendEnv, sync: SyncResult, close: CloseResult,
                       dirs: bool)
    requires Sane(s) && s.failed
    ensures var (t, code) := AppendStep(s, writer, r, e, sync, close, dirs); t == s && code != SUCCESS
  {
  }

  /** What latches it: a sync that failed, or the directories of a log it began that could not be synced. */
  lemma LatchesExactlyWhen(s: State, f: Flight, syncOk: bool, closeOk: bool, dirs: bool)
    ensures var (t, code) := FinishStep(s, f, syncOk, closeOk, dirs);
            (t.failed <==> s.failed || !syncOk || (f.written && closeOk && f.created && !dirs)) &&
            (t.failed && !s.failed ==> code == ERR_UNKNOWN) && t.log == s.log && t.synced == s.synced
  {
  }

  /* ---- lines this writer did not write ---- */

  /** A publication with numbers of any size. */
  function PublishFields(chronicle: string, story: string, file: string, a: nat, b: nat, c: nat): seq<Field>
  {
    [Named("op", "publish"), Named("chronicle", chronicle), Named("story", story), Named("file", file),
     Field("start", JInt(a)), Field("end", JInt(b)), Field("events", JInt(c))]
  }

  function Saturated(n: nat): uint64 { if n < 0x7FFF_FFFF_FFFF_FFFF then n else 0x7FFF_FFFF_FFFF_FFFF }

  lemma PublishFieldsRead(chronicle: string, story: string, file: string, a: nat, b: nat, c: nat)
    requires file != ""
    ensures ReadFields(PublishFields(chronicle, story, file, a, b, c)) ==
            Some(DEFAULT.(chronicle := chronicle, story := story, file := file,
                          start := Saturated(a), end := Saturated(b), events := Saturated(c)))
  {
    hide Lookup;
    KeysDiffer();
    var f := PublishFields(chronicle, story, file, a, b, c);
    LookupPresent(f, 0, "op");
    LookupPresent(f, 1, "chronicle");
    LookupPresent(f, 2, "story");
    LookupPresent(f, 3, "file");
    LookupPresent(f, 4, "start");
    LookupPresent(f, 5, "end");
    LookupPresent(f, 6, "events");
  }

  /** Such a line reads with each number cut to INT64_MAX. */
  lemma NumbersSaturate(chronicle: string, story: string, file: string, a: nat, b: nat, c: nat)
    requires file != ""
    ensures ParseManifestLine(Render(JObject(PublishFields(chronicle, story, file, a, b, c)), false)) ==
            Some(DEFAULT.(chronicle := chronicle, story := story, file := file,
                          start := Saturated(a), end := Saturated(b), events := Saturated(c)))
  {
    hide ParseValue, Render, ReadFields;
    var f := PublishFields(chronicle, story, file, a, b, c);
    var line := Render(JObject(f), false);
    assert line + "" == line;
    ParseUndoesRender(JObject(f), false, "");
    ObjectEndsAtItsBrace(f, false, "");
    PublishFieldsRead(chronicle, story, file, a, b, c);
  }

  /** A deletion with its flag spelled out. */
  function DeleteFields(chronicle: string, story: string, whole: bool): seq<Field>
  {
    [Named("op", "delete"), Named("chronicle", chronicle), Named("story", story),
     Field("whole_chronicle", JBool(whole))]
  }

  lemma DeleteFieldsRead(chronicle: string, story: string, whole: bool)
    ensures ReadFields(DeleteFields(chronicle, story, whole)) ==
            Some(DEFAULT.(op := DELETE, chronicle := chronicle, story := story, wholeChronicle := whole))
  {
    hide Lookup;
    KeysDiffer();
    var f := DeleteFields(chronicle, story, whole);
    LookupPresent(f, 0, "op");
    LookupPresent(f, 1, "chronicle");
    LookupPresent(f, 2, "story");
    LookupPresent(f, 3, "whole_chronicle");
    LookupAbsent(f, "writer_start");
    LookupAbsent(f, "up_to_incarnation");
  }

  /** Such a line says what its flag says, whichever that is. */
  lemma FlagIsRead(chronicle: string, story: string, whole: bool)
    ensures ParseManifestLine(Render(JObject(DeleteFields(chronicle, story, whole)), false)) ==
            Some(DEFAULT.(op := DELETE, chronicle := chronicle, story := story, wholeChronicle := whole))
  {
    hide ParseValue, Render, ReadFields;
    var f := DeleteFields(chronicle, story, whole);
    var line := Render(JObject(f), false);
    assert line + "" == line;
    ParseUndoesRender(JObject(f), false, "");
    ObjectEndsAtItsBrace(f, false, "");
    DeleteFieldsRead(chronicle, story, whole);
  }

  predicate NoKey(fields: seq<Field>, key: string) { forall i | 0 <= i < |fields| :: fields[i].key != key }

  /** An object that cannot be a record: no op, one that is no text or none of the three, or no name of the
      chronicle, the file, the times or the writer where its op needs one. */
  predicate Incomplete(fields: seq<Field>, i: nat)
  {
    NoKey(fields, "op") ||
    (i < |fields| && fields[i].key == "op" && (forall j | i < j < |fields| :: fields[j].key != "op") &&
     (!fields[i].value.JString? ||
      match fields[i].value.text
      case "open" => NoKey(fields, "writer") || NoKey(fields, "time")
      case "publish" =>
        NoKey(fields, "chronicle") || NoKey(fields, "story") || NoKey(fields, "file") || NoKey(fields, "start") ||
        NoKey(fields, "end")
      case "delete" => NoKey(fields, "chronicle") || (NoKey(fields, "story") && NoKey(fields, "whole_chronicle"))
      case _ => true))
  }

  lemma Absent(fields: seq<Field>, key: string)
    ensures NoKey(fields, key) ==> Lookup(fields, key).None?
  {
    hide Lookup;
    if NoKey(fields, key) { LookupAbsent(fields, key); }
  }

  lemma IncompleteIsNotRead(fields: seq<Field>, i: nat)
    requires Incomplete(fields, i)
    ensures ReadFields(fields).None?
  {
    hide Lookup, NoKey;
    KeysDiffer();
    Absent(fields, "op");
    if !NoKey(fields, "op") { LookupPresent(fields, i, "op"); }
    Absent(fields, "writer");
    Absent(fields, "time");
    Absent(fields, "chronicle");
    Absent(fields, "story");
    Absent(fields, "file");
    Absent(fields, "start");
    Absent(fields, "end");
    Absent(fields, "whole_chronicle");
  }

  /** Its line is no record. */
  lemma IncompleteIsNoRecord(fields: seq<Field>, i: nat)
    requires Incomplete(fields, i)
    ensures ParseManifestLine(Render(JObject(fields), false)).None?
  {
    hide ParseValue, Render, ReadFields, Incomplete;
    var line := Render(JObject(fields), false);
    assert line + "" == line;
    ParseUndoesRender(JObject(fields), false, "");
    ObjectEndsAtItsBrace(fields, false, "");
    IncompleteIsNotRead(fields, i);
  }
}
