/** A manifest log as bytes, and what a reader makes of it: the records on its complete lines. */
module ManifestLog {
  import opened ManifestRecord

  /** Index of the first newline, or |s| when there is none. */
  function FirstNewline(s: string): (k: nat)
    ensures k <= |s| && '\n' !in s[..k]
    ensures k < |s| ==> s[k] == '\n'
  {
    if s == "" || s[0] == '\n' then 0
    else
      var k := FirstNewline(s[1..]);
      assert s[..1 + k] == [s[0]] + s[1..][..k];
      1 + k
  }

  /** The complete lines, without their newlines. */
  function Lines(log: string): seq<string>
    decreases |log|
  {
    var k := FirstNewline(log);
    if k == |log| then [] else [log[..k]] + Lines(log[k + 1..])
  }

  /** What a line contributes: header lines and unreadable lines nothing. */
  function RecordsOfLine(line: string): seq<Record>
  {
    match ParseManifestLine(line)
    case Some(r) => if r.op == OPEN then [] else [r]
    case None => []
  }

  function RecordsOfLines(lines: seq<string>): seq<Record>
  {
    if lines == [] then [] else RecordsOfLine(lines[0]) + RecordsOfLines(lines[1..])
  }

  /** What reading the whole log yields. */
  function Records(log: string): seq<Record> { RecordsOfLines(Lines(log)) }

  predicate EndsLine(s: string) { s == "" || s[|s| - 1] == '\n' }

  lemma FirstNewlineOf(line: string, rest: string)
    requires '\n' !in line
    ensures FirstNewline(line + "\n" + rest) == |line|
  {
    var s := line + "\n" + rest;
    assert forall i | 0 <= i < |line| :: s[i] == line[i] != '\n';
    assert s[|line|] == '\n';
  }

  lemma LinesCons(line: string, rest: string)
    requires '\n' !in line
    ensures Lines(line + "\n" + rest) == [line] + Lines(rest)
  {
    var s := line + "\n" + rest;
    FirstNewlineOf(line, rest);
    assert s[..|line|] == line && s[|line| + 1..] == rest;
  }

  lemma LinesNone(s: string)
    requires '\n' !in s
    ensures Lines(s) == []
  {
    assert forall i | 0 <= i < |s| :: s[i] != '\n';
  }

  lemma SplitFirstLine(a: string) returns (line: string, more: string)
    requires EndsLine(a) && a != ""
    ensures a == line + "\n" + more && '\n' !in line && EndsLine(more)
  {
    var k := FirstNewline(a);
    assert a[..|a|] == a && a[|a| - 1] in a;
    line, more := a[..k], a[k + 1..];
  }

  lemma LinesConcatStep(line: string, more: string, b: string)
    requires '\n' !in line && Lines(more + b) == Lines(more) + Lines(b)
    ensures Lines(line + "\n" + more + b) == Lines(line + "\n" + more) + Lines(b)
  {
    hide Lines;
    assert line + "\n" + more + b == line + "\n" + (more + b);
    LinesCons(line, more + b);
    LinesCons(line, more);
  }

  lemma {:induction false} LinesConcat(a: string, b: string)
    requires EndsLine(a)
    ensures Lines(a + b) == Lines(a) + Lines(b)
    decreases |a|
  {
    hide Lines;
    if a == "" {
      assert a + b == b;
      LinesNone("");
    } else {
      var line, more := SplitFirstLine(a);
      LinesConcat(more, b);
      LinesConcatStep(line, more, b);
    }
  }

  lemma {:induction false} RecordsOfLinesConcat(a: seq<string>, b: seq<string>)
    ensures RecordsOfLines(a + b) == RecordsOfLines(a) + RecordsOfLines(b)
  {
    hide RecordsOfLine;
    if a == [] {
      assert a + b == b;
    } else {
      assert (a + b)[1..] == a[1..] + b;
      RecordsOfLinesConcat(a[1..], b);
    }
  }

  /** Reading a log in two pieces cut at a line end reads it all. */
  lemma RecordsConcat(a: string, b: string)
    requires EndsLine(a)
    ensures Records(a + b) == Records(a) + Records(b)
  {
    hide RecordsOfLines;
    LinesConcat(a, b);
    RecordsOfLinesConcat(Lines(a), Lines(b));
  }

  lemma OneLine(line: string)
    requires '\n' !in line
    ensures Records(line + "\n") == RecordsOfLine(line)
  {
    hide RecordsOfLine, Lines;
    assert line + "\n" + "" == line + "\n";
    LinesCons(line, "");
    LinesNone("");
    assert RecordsOfLines([line]) == RecordsOfLine(line) + RecordsOfLines([line][1..]);
  }

  lemma NoRecords()
    ensures Records("") == []
  {
  }

  /** What follows the last newline holds no record yet. */
  lemma RecordsIgnoreTail(a: string, tail: string)
    requires EndsLine(a) && '\n' !in tail
    ensures Records(a + tail) == Records(a)
  {
    RecordsConcat(a, tail);
    LinesNone(tail);
  }
}
