/** A run in which a tail that follows the log live misses an acknowledged record: it consumes a line
    that was never synced, a crash takes the line back, and a longer one takes its place. */
module ManifestOverrun {
  import opened Text
  import opened Json
  import opened ManifestRecord
  import opened ManifestLog
  import opened ManifestWriter
  import Tails = ManifestTail

  function Deletion(story: string): Record { DEFAULT.(op := DELETE, story := story) }

  lemma DeletionLine(story: string)
    ensures var f := FieldsOf(Deletion(story));
            ToManifestLine(Deletion(story)) ==
            "{" + (RenderField(f[0], false) + "," +
                   (RenderField(f[1], false) + "," +
                    (RenderString("story", false) + ":" + RenderString(story, false)))) + "}"
  {
    hide RenderField, RenderString, RenderFields;
    var f := FieldsOf(Deletion(story));
    assert f[1..][1..] == [Named("story", story)] && f[1..][0] == f[1];
    RenderFieldsStep(f, false);
    RenderFieldsStep(f[1..], false);
    RenderFieldsStep(f[1..][1..], false);
    StoryField(story);
  }

  lemma StoryField(story: string)
    ensures RenderField(Named("story", story), false) == RenderString("story", false) + ":" + RenderString(story, false)
  {
  }

  lemma DeletionLength(story: string)
    ensures |ToManifestLine(Deletion(story))| == |ToManifestLine(Deletion(""))| + |Escape(story, false)|
  {
    hide RenderField, ToManifestLine;
    DeletionLine(story);
    DeletionLine("");
    assert FieldsOf(Deletion(story))[..2] == FieldsOf(Deletion(""))[..2];
  }

  function OneWrite(now: uint64, r: Record): AppendEnv
  {
    AppendEnv(Opened, true, now, [Wrote(|ToManifestLine(r)| + 1)])
  }

  /** A writer whose log is all synced. */
  function AllSynced(log: string): State { State(log, |log|, false, false) }

  /** A whole record behind a log that needs no newline, not yet synced and then synced. */
  lemma WholeAppend(log: string, now: uint64, r: Record)
    requires log != "" && AppendAccepts(r)
    ensures BeginStep(AllSynced(log), "w", r, OneWrite(now, r)).state ==
            AllSynced(log).(log := log + (ToManifestLine(r) + "\n"))
    ensures AppendStep(AllSynced(log), "w", r, OneWrite(now, r), Synced, Closed, true) ==
            (AllSynced(log + (ToManifestLine(r) + "\n")), SUCCESS)
  {
    hide ToManifestLine;
    var line := ToManifestLine(r);
    assert "" + (line + "\n") == line + "\n" && (line + "\n")[..|line| + 1] == line + "\n";
  }

  /** A crash that takes back everything unsynced, and the restart after it. */
  lemma CrashAndRestart(log: string, more: string, now: uint64)
    requires log != "" && EndsLine(log)
    ensures Drop(AllSynced(log).(log := log + more), 0) == AllSynced(log)
    ensures OpenStep(AllSynced(log), "w", OpenEnv(true, true, true, now, [], Synced, Closed, true, true)) ==
            (AllSynced(log), SUCCESS)
  {
    hide ToManifestLine;
    assert log + "" == log;
  }

  lemma ReadAll(inode: nat, bytes: string)
    requires bytes != "" && EndsLine(bytes)
    ensures Tails.ReadNewSpec(Tails.NEW_TAIL, Tails.Log(inode, bytes), true, |bytes|, [Tails.Got(|bytes|)],
                              Tails.Tail(|bytes|, inode, Tails.HeadOf(bytes)), Tails.SUCCESS, Records(bytes))
  {
    hide Records, Tails.HeadOf;
    assert bytes[0..|bytes|] == bytes;
  }

  /** A tail that stands just before the last two bytes of the log's last line, in a log that starts as
      the one it consumed did. */
  lemma ReadBrace(inode: nat, was: string, h: string, bytes: string)
    requires h != "" && EndsLine(h) && h <= was && h <= bytes
    requires |was| + 2 == |bytes| && bytes[|was|..] == "}\n"
    ensures Tails.ReadNewSpec(Tails.Tail(|was|, inode, Tails.HeadOf(was)), Tails.Log(inode, bytes), true, |bytes|,
                              [Tails.Got(|bytes|)], Tails.Tail(|bytes|, inode, Tails.HeadOf(was)), Tails.SUCCESS, [])
  {
    hide Records, Tails.HeadOf;
    Tails.SameHead(h, |h| - 1, was);
    Tails.SameHead(h, |h| - 1, bytes);
    Tails.HeadIsPrefix(bytes);
    BraceIsNoRecord();
    assert bytes[|was|..|bytes|] == "}\n";
  }

  lemma BraceIsNoRecord()
    ensures Records("}\n") == []
  {
    hide Records;
    assert "}" + "\n" == "}\n";
    OneLine("}");
  }

  /** The append of a short deletion writes its line; a tail reads it; a crash takes it back before it is
      synced. After the restart the append of a longer deletion succeeds and a reader of the log gets
      its record, but the tail, which now stands inside that line, passes over it. */
  lemma LiveTailMissesARecord(now: uint64, inode: nat)
    ensures var h := HeaderLine("w", now);
            var written := BeginStep(AllSynced(h), "w", Deletion(""), OneWrite(now, Deletion(""))).state;
            var reopen := OpenEnv(true, true, true, now, [], Synced, Closed, true, true);
            var restarted := OpenStep(Drop(written, 0), "w", reopen);
            var late := Deletion("xy");
            var append := AppendStep(restarted.0, "w", late, OneWrite(now, late), Synced, Closed, true);
            var t := Tails.Tail(|written.log|, inode, Tails.HeadOf(written.log));
            var log := append.0.log;
            restarted.1 == SUCCESS && append.1 == SUCCESS && Records(log) == [Deletion("xy")] &&
            Tails.ReadNewSpec(Tails.NEW_TAIL, Tails.Log(inode, written.log), true, |written.log|,
                              [Tails.Got(|written.log|)], t, Tails.SUCCESS, Records(written.log)) &&
            Tails.ReadNewSpec(t, Tails.Log(inode, log), true, |log|, [Tails.Got(|log|)], t.(offset := |log|),
                              Tails.SUCCESS, [])
  {
    hide Records, Tails.HeadOf, Tails.ReadNewSpec, ToManifestLine, BeginStep, AppendStep, OpenStep, Drop, EndsLine;
    var h := HeaderLine("w", now);
    var short, long := ToManifestLine(Deletion("")) + "\n", ToManifestLine(Deletion("xy")) + "\n";
    HeaderEnds(now);
    LineEnds(h, ToManifestLine(Deletion("")));
    LineEnds(h, ToManifestLine(Deletion("xy")));
    WholeAppend(h, now, Deletion(""));
    CrashAndRestart(h, short, now);
    WholeAppend(h, now, Deletion("xy"));
    ReadAll(inode, h + short);
    LongerByTwo();
    assert (h + long)[|h + short|..] == "}\n";
    ReadBrace(inode, h + short, h, h + long);
    LastRecord(now);
  }

  lemma HeaderEnds(now: uint64)
    ensures HeaderLine("w", now) != "" && EndsLine(HeaderLine("w", now))
  {
    hide ToManifestLine;
  }

  lemma LineEnds(h: string, line: string)
    ensures EndsLine(h + (line + "\n")) && h + (line + "\n") != ""
  {
  }

  lemma LongerByTwo()
    ensures |ToManifestLine(Deletion("xy"))| == |ToManifestLine(Deletion(""))| + 2
    ensures var line := ToManifestLine(Deletion("xy")); line[|line| - 1] == '}'
  {
    hide RenderFields;
    DeletionLength("xy");
    assert "xy"[1..] == "y" && "y"[1..] == "";
    assert Escape("xy", false) == ['x'] + (['y'] + "");
  }

  lemma LastRecord(now: uint64)
    ensures Records(HeaderLine("w", now) + (ToManifestLine(Deletion("xy")) + "\n")) == [Deletion("xy")]
  {
    hide Records, ToManifestLine, ParseManifestLine;
    var h, r := HeaderRecord("w", now), Deletion("xy");
    RecordsConcat(HeaderLine("w", now), ToManifestLine(r) + "\n");
    LineIsOneLine(h);
    OneLine(ToManifestLine(h));
    ParseOfLine(h);
    LineIsOneLine(r);
    OneLine(ToManifestLine(r));
    ParseOfLine(r);
  }
}
