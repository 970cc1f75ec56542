/** What a log's first line is for: it names the writer and the clock that began the log, so that no log
    made later passes for it. */
module ManifestHeader {
  import opened Text
  import opened ManifestRecord
  import opened ManifestLog
  import opened ManifestWriter
  import Tails = ManifestTail

  /** The log's first line is read as the start of a log by this writer at this time. */
  predicate BegunBy(log: string, writer: string, time: uint64)
  {
    '\n' in log &&
    match ParseManifestLine(log[..FirstNewline(log)])
    case Some(r) => r.op == OPEN && r.writer == writer && r.start == time
    case None => false
  }

  lemma FirstLineIs(line: string, more: string)
    requires '\n' !in line
    ensures var log := line + "\n" + more;
            '\n' in log && FirstNewline(log) == |line| && log[..FirstNewline(log)] == line
  {
    FirstNewlineOf(line, more);
    assert (line + "\n" + more)[|line|] == '\n';
  }

  /** A clock past INT64_MAX comes out negative, and then no reader can read the header. */
  lemma HeaderBegins(writer: string, now: uint64, more: string)
    ensures var log := HeaderLine(writer, now) + more;
            '\n' in log &&
            if now <= INT64_MAX then BegunBy(log, writer, now)
            else ParseManifestLine(log[..FirstNewline(log)]).None?
  {
    hide ToManifestLine, ParseManifestLine, FirstNewline;
    var h := HeaderRecord(writer, now);
    LineIsOneLine(h);
    ParseOfLine(h);
    FirstLineIs(ToManifestLine(h), more);
    assert HeaderLine(writer, now) + more == ToManifestLine(h) + "\n" + more;
  }

  /** A successful open of an empty log leaves a log begun by this writer at this time, and nothing else
      in it. */
  lemma OpenBegins(s: State, writer: string, e: OpenEnv)
    requires Sane(s) && s.log == "" && OpenStep(s, writer, e).1 == SUCCESS && e.now <= INT64_MAX
    ensures var log := OpenStep(s, writer, e).0.log;
            BegunBy(log, writer, e.now) && FirstNewline(log) + 1 == |log|
  {
    hide ToManifestLine, BegunBy, FirstNewline;
    var text := HeaderLine(writer, e.now);
    HeaderBegins(writer, e.now, "");
    assert text + "" == text && text[..|text|] == text && "" + text == text;
    LineIsOneLine(HeaderRecord(writer, e.now));
    FirstLineIs(ToManifestLine(HeaderRecord(writer, e.now)), "");
  }

  /** So does an append that finds the log gone and writes all it set out to. */
  lemma AppendBegins(s: State, writer: string, r: Record, e: AppendEnv)
    requires Sane(s) && s.log == "" && e.statOk && e.now <= INT64_MAX
    requires var b := BeginStep(s, writer, r, e); b.flight.Some? && b.flight.value.written
    ensures BegunBy(BeginStep(s, writer, r, e).state.log, writer, e.now)
  {
    hide ToManifestLine, BegunBy;
    var text := AppendText(s, writer, r, e);
    HeaderBegins(writer, e.now, ToManifestLine(r) + "\n");
    assert "" + text == text && text[..|text|] == text;
  }

  lemma GrowthKeepsTheStart(log: string, more: string, writer: string, time: uint64)
    requires BegunBy(log, writer, time)
    ensures BegunBy(log + more, writer, time) && FirstNewline(log + more) == FirstNewline(log)
  {
    hide ParseManifestLine, FirstNewline;
    var k := FirstNewline(log);
    assert log[..|log|] == log;
    FirstLineIs(log[..k], log[k + 1..] + more);
    assert log[..k] + "\n" + (log[k + 1..] + more) == log + more;
  }

  /** Logs begun by different writers or at different times have different first lines. */
  lemma OtherStartOtherFirstLine(was: string, w1: string, t1: uint64, now: string, w2: string, t2: uint64)
    requires BegunBy(was, w1, t1) && BegunBy(now, w2, t2) && (w1 != w2 || t1 != t2)
    requires FirstNewline(was) < 65536
    ensures Tails.OtherFirstLine(was, now)
  {
    hide ParseManifestLine, FirstNewline;
  }

  /** A log deleted and begun again by an open, with another writer or clock, is read whole by a tail of
      the old one, even on the same inode and however long it has grown. */
  lemma BegunAgainIsReadWhole(run: seq<Tails.Event>, was: string, oldInode: nat, w1: string, t1: uint64, inode: nat,
                              b0: string, t0: Tails.Tail, s: State, w2: string, e: OpenEnv, more: string,
                              t: Tails.Tail, total: seq<Record>)
    requires BegunBy(was, w1, t1) && FirstNewline(was) < 65536
    requires Sane(s) && s.log == "" && OpenStep(s, w2, e).1 == SUCCESS && e.now <= INT64_MAX
    requires w1 != w2 || t1 != e.now
    requires Tails.Run(run, inode, b0, t0, OpenStep(s, w2, e).0.log + more, t, total)
    requires Tails.Follows(t0, oldInode, was) && t0.offset > 0
    requires exists k :: 0 <= k < |run| && run[k].Read? && run[k].found.Log?
    ensures var log := OpenStep(s, w2, e).0.log + more;
            Tails.Follows(t, inode, log) && total == Records(log[..t.offset])
  {
    hide BegunBy, OpenStep, FirstNewline, Records, Tails.Run, Tails.Follows, Tails.OtherFirstLine;
    OpenBegins(s, w2, e);
    var log := OpenStep(s, w2, e).0.log;
    GrowthKeepsTheStart(log, more, w2, e.now);
    OtherStartOtherFirstLine(was, w1, t1, log + more, w2, e.now);
    Tails.ReplacedLogIsReadWhole(run, was, oldInode, inode, b0, t0, log + more, t, total);
  }
}
