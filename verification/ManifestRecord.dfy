/** Archive manifest records and the one-line JSON form they are stored in. */
module ManifestRecord {
  import opened Text
  import opened Json
  import opened JsonScanner
  import opened JsonCut

  datatype Op = PUBLISH | DELETE | OPEN

  datatype Record = Record(
    op: Op,
    chronicle: string,
    story: string,
    wholeChronicle: bool,
    file: string,
    writer: string,
    writerStart: uint64,
    incarnationBound: uint64,
    start: uint64,
    end: uint64,
    events: uint64)

  const DEFAULT := Record(PUBLISH, "", "", false, "", "", 0, UINT64_MAX, 0, 0, 0)

  /* ---- writing ---- */

  /** `static_cast<int64_t>`: a number past INT64_MAX comes out negative. */
  function Number(n: uint64): Json { JInt(if n <= INT64_MAX then n else n - UINT64_MAX - 1) }

  function Named(key: string, value: string): Field { Field(key, JString(value)) }

  function BoundFields(r: Record): seq<Field>
  {
    if r.incarnationBound == UINT64_MAX then []
    else [Field("writer_start", Number(r.writerStart)), Field("up_to_incarnation", Number(r.incarnationBound))]
  }

  function FieldsOf(r: Record): seq<Field>
  {
    match r.op
    case OPEN => [Named("op", "open"), Named("writer", r.writer), Field("time", Number(r.start))]
    case PUBLISH =>
      [Named("op", "publish"), Named("chronicle", r.chronicle), Named("story", r.story), Named("file", r.file),
       Field("start", Number(r.start)), Field("end", Number(r.end)), Field("events", Number(r.events))]
    case DELETE =>
      [Named("op", "delete"), Named("chronicle", r.chronicle),
       if r.wholeChronicle then Field("whole_chronicle", JBool(true)) else Named("story", r.story)]
      + BoundFields(r)
  }

  function ToManifestLine(r: Record): string { Render(JObject(FieldsOf(r)), false) }

  /* ---- reading ---- */

  function GetString(fields: seq<Field>, key: string, required: bool): Option<string>
  {
    match Lookup(fields, key)
    case None => if required then None else Some("")
    case Some(JString(t)) => Some(t)
    case Some(_) => None
  }

  /** Numbers come back as int64: negative ones are refused, larger ones saturate. */
  function GetUint64(fields: seq<Field>, key: string, required: bool, default: uint64): Option<uint64>
  {
    match Lookup(fields, key)
    case None => if required then None else Some(default)
    case Some(JInt(n)) => if n < 0 then None else Some(if n <= INT64_MAX then n else INT64_MAX)
    case Some(_) => None
  }

  function GetBool(fields: seq<Field>, key: string): Option<bool>
  {
    match Lookup(fields, key)
    case None => Some(false)
    case Some(JBool(b)) => Some(b)
    case Some(_) => None
  }

  function ReadPublish(f: seq<Field>): Option<Record>
  {
    match (GetString(f, "chronicle", true), GetString(f, "story", true), GetString(f, "file", true))
    case (Some(chronicle), Some(story), Some(file)) =>
      (match (GetUint64(f, "start", true, 0), GetUint64(f, "end", true, 0), GetUint64(f, "events", false, 0))
       case (Some(start), Some(end), Some(events)) =>
         if file == "" then None
         else Some(DEFAULT.(chronicle := chronicle, story := story, file := file,
                            start := start, end := end, events := events))
       case _ => None)
    case _ => None
  }

  function ReadOpen(f: seq<Field>): Option<Record>
  {
    match (GetString(f, "writer", true), GetUint64(f, "time", true, 0))
    case (Some(writer), Some(time)) => Some(DEFAULT.(op := OPEN, writer := writer, start := time))
    case _ => None
  }

  function ReadDelete(f: seq<Field>): Option<Record>
  {
    match (GetString(f, "chronicle", true), GetBool(f, "whole_chronicle"))
    case (Some(chronicle), Some(whole)) =>
      (match (GetString(f, "story", !whole), GetUint64(f, "writer_start", false, 0),
              GetUint64(f, "up_to_incarnation", false, UINT64_MAX))
       case (Some(story), Some(start), Some(bound)) =>
         Some(DEFAULT.(op := DELETE, chronicle := chronicle, story := story, wholeChronicle := whole,
                       writerStart := start, incarnationBound := bound))
       case _ => None)
    case _ => None
  }

  function ReadFields(f: seq<Field>): Option<Record>
  {
    match GetString(f, "op", true)
    case Some(op) =>
      if op == "publish" then ReadPublish(f)
      else if op == "open" then ReadOpen(f)
      else if op == "delete" then ReadDelete(f)
      else None
    case None => None
  }

  /** `parseManifestLine`: the tokener stops after the first object, so the scanner has to agree
      that the line stops there too. */
  function ParseManifestLine(line: string): Option<Record>
  {
    match ParseValue(line)
    case Got(JObject(fields), _) =>
      if EndOfFirstObjectSpec(line) == Some(|line|) then ReadFields(fields) else None
    case _ => None
  }

  /* ---- which records survive ---- */

  /** `ArchiveManifestWriter::append`'s guard. */
  predicate AppendAccepts(r: Record)
  {
    r.start <= INT64_MAX && r.end <= INT64_MAX && r.events <= INT64_MAX &&
    (r.incarnationBound != UINT64_MAX ==> r.incarnationBound <= INT64_MAX && r.writerStart <= INT64_MAX)
  }

  /** Every number the record's line carries fits in int64. */
  predicate NumbersFit(r: Record)
  {
    match r.op
    case OPEN => r.start <= INT64_MAX
    case PUBLISH => r.start <= INT64_MAX && r.end <= INT64_MAX && r.events <= INT64_MAX
    case DELETE =>
      r.incarnationBound == UINT64_MAX || (r.incarnationBound <= INT64_MAX && r.writerStart <= INT64_MAX)
  }

  /** The record with every field its line does not carry at its default. */
  function Canonical(r: Record): Record
  {
    match r.op
    case OPEN => DEFAULT.(op := OPEN, writer := r.writer, start := r.start)
    case PUBLISH => DEFAULT.(chronicle := r.chronicle, story := r.story, file := r.file,
                             start := r.start, end := r.end, events := r.events)
    case DELETE =>
      DEFAULT.(op := DELETE, chronicle := r.chronicle, wholeChronicle := r.wholeChronicle,
               story := if r.wholeChronicle then "" else r.story,
               writerStart := if r.incarnationBound == UINT64_MAX then 0 else r.writerStart,
               incarnationBound := r.incarnationBound)
  }

  /** A publication without a file name is written but never read back. */
  predicate Nameless(r: Record) { r.op == PUBLISH && r.file == "" }

  lemma KeysDiffer()
    ensures "file" != "time" && "story" != "start" && "events" != "writer"
    ensures "publish" != "open" && "publish" != "delete" && "open" != "delete"
  {
    assert "file"[0] != "time"[0] && "story"[2] != "start"[2] && "events"[0] != "writer"[0];
  }

  lemma ReadBackPublish(r: Record)
    requires r.op == PUBLISH
    ensures ReadFields(FieldsOf(r)) == if NumbersFit(r) && !Nameless(r) then Some(Canonical(r)) else None
  {
    hide Lookup;
    KeysDiffer();
    var f := FieldsOf(r);
    LookupPresent(f, 0, "op");
    LookupPresent(f, 1, "chronicle");
    LookupPresent(f, 2, "story");
    LookupPresent(f, 3, "file");
    LookupPresent(f, 4, "start");
    LookupPresent(f, 5, "end");
    LookupPresent(f, 6, "events");
  }

  lemma ReadBackOpen(r: Record)
    requires r.op == OPEN
    ensures ReadFields(FieldsOf(r)) == if NumbersFit(r) then Some(Canonical(r)) else None
  {
    hide Lookup;
    KeysDiffer();
    var f := FieldsOf(r);
    LookupPresent(f, 0, "op");
    LookupPresent(f, 1, "writer");
    LookupPresent(f, 2, "time");
  }

  lemma DeletedStory(r: Record)
    requires r.op == DELETE
    ensures var f := FieldsOf(r);
            GetBool(f, "whole_chronicle") == Some(r.wholeChronicle) &&
            GetString(f, "story", !r.wholeChronicle) == Some(if r.wholeChronicle then "" else r.story)
  {
    hide Lookup;
    KeysDiffer();
    var f := FieldsOf(r);
    if r.wholeChronicle {
      LookupPresent(f, 2, "whole_chronicle");
      LookupAbsent(f, "story");
    } else {
      LookupPresent(f, 2, "story");
      LookupAbsent(f, "whole_chronicle");
    }
  }

  lemma DeletedBound(r: Record)
    requires r.op == DELETE
    ensures var start := GetUint64(FieldsOf(r), "writer_start", false, 0);
            var bound := GetUint64(FieldsOf(r), "up_to_incarnation", false, UINT64_MAX);
            if r.incarnationBound == UINT64_MAX then start == Some(0) && bound == Some(UINT64_MAX)
            else (start.Some? && bound.Some? <==> NumbersFit(r)) &&
                 (NumbersFit(r) ==> start == Some(r.writerStart) && bound == Some(r.incarnationBound))
  {
    hide Lookup;
    KeysDiffer();
    var f := FieldsOf(r);
    if r.incarnationBound == UINT64_MAX {
      LookupAbsent(f, "writer_start");
      LookupAbsent(f, "up_to_incarnation");
    } else {
      LookupPresent(f, 3, "writer_start");
      LookupPresent(f, 4, "up_to_incarnation");
    }
  }

  lemma DeletedNames(r: Record)
    requires r.op == DELETE
    ensures GetString(FieldsOf(r), "op", true) == Some("delete")
    ensures GetString(FieldsOf(r), "chronicle", true) == Some(r.chronicle)
  {
    hide Lookup;
    KeysDiffer();
    LookupPresent(FieldsOf(r), 0, "op");
    LookupPresent(FieldsOf(r), 1, "chronicle");
  }

  lemma ReadBackDelete(r: Record)
    requires r.op == DELETE
    ensures ReadFields(FieldsOf(r)) == if NumbersFit(r) then Some(Canonical(r)) else None
  {
    hide GetString, GetBool, GetUint64, FieldsOf;
    KeysDiffer();
    DeletedNames(r);
    DeletedStory(r);
    DeletedBound(r);
  }

  /** What a record's line reads back as, for every record there is. */
  lemma ParseOfLine(r: Record)
    ensures ParseManifestLine(ToManifestLine(r)) ==
            if NumbersFit(r) && !Nameless(r) then Some(Canonical(r)) else None
  {
    hide ParseValue, Render, ReadFields;
    var line := ToManifestLine(r);
    assert line + "" == line;
    ParseUndoesRender(JObject(FieldsOf(r)), false, "");
    ObjectEndsAtItsBrace(FieldsOf(r), false, "");
    match r.op {
      case PUBLISH => ReadBackPublish(r);
      case OPEN => ReadBackOpen(r);
      case DELETE => ReadBackDelete(r);
    }
  }

  /** A record parses back to itself exactly when it is canonical, its numbers fit and, for a
      publication, it names a file. */
  lemma RoundTripExactly(r: Record)
    ensures ParseManifestLine(ToManifestLine(r)) == Some(r) <==>
            NumbersFit(r) && Canonical(r) == r && !Nameless(r)
  {
    hide ParseManifestLine, ToManifestLine;
    ParseOfLine(r);
  }

  /** `append`'s guard is enough for the numbers, but it lets a nameless publication through. */
  lemma AcceptedRoundTrip(r: Record)
    requires AppendAccepts(r) && Canonical(r) == r
    ensures ParseManifestLine(ToManifestLine(r)) == (if Nameless(r) then None else Some(r))
  {
    hide ParseManifestLine, ToManifestLine;
    ParseOfLine(r);
  }

  lemma NamelessPublicationIsAcceptedAndLost()
    ensures AppendAccepts(DEFAULT) && Canonical(DEFAULT) == DEFAULT
    ensures ParseManifestLine(ToManifestLine(DEFAULT)).None?
  {
    hide ParseManifestLine, ToManifestLine;
    ParseOfLine(DEFAULT);
  }

  /** A line an interrupted append cut short is never a record. */
  lemma CutLineIsUnreadable(r: Record, k: nat)
    requires k < |ToManifestLine(r)|
    ensures EndOfFirstObjectSpec(ToManifestLine(r)[..k]).None?
    ensures ParseManifestLine(ToManifestLine(r)[..k]).None?
  {
    hide ParseValue, Render;
    CutObjectHasNoEnd(FieldsOf(r), false, k);
  }

  /** A record with anything after it on the same line is never a record. */
  lemma GluedLineIsUnreadable(r: Record, more: string)
    requires more != ""
    ensures EndOfFirstObjectSpec(ToManifestLine(r) + more) == Some(|ToManifestLine(r)|)
    ensures ParseManifestLine(ToManifestLine(r) + more).None?
  {
    hide ParseValue, Render;
    ObjectEndsAtItsBrace(FieldsOf(r), false, more);
  }

  lemma LineStart(r: Record)
    ensures "{\"o" <= ToManifestLine(r)
  {
    hide RenderFields, Escape;
    var f := FieldsOf(r);
    FirstFieldStart(f[0].value, f);
  }

  lemma FirstFieldStart(v: Json, f: seq<Field>)
    requires |f| > 1 && f[0] == Field("op", v)
    ensures "\"o" <= RenderFields(f, false)
  {
    hide Render;
    assert "op"[1..] == "p";
    assert Escape("op", false) == "o" + Escape("p", false);
    assert RenderField(f[0], false)[..2] == "\"o";
  }

  /* ---- lines run together ---- */

  /** A non-empty beginning of some record's line. */
  ghost predicate StartsALine(p: string) { p != "" && exists r: Record :: p <= ToManifestLine(r) }

  function Join(parts: seq<string>): string
  {
    if parts == [] then "" else parts[0] + Join(parts[1..])
  }

  lemma BodyIntoStart(p: string, g: string)
    requires p != "" && p[..Shorter(|p|, 3)] == "{\"o"[..Shorter(|p|, 3)] && Glue(g)
    ensures Stuck(ParseBody(p + g))
  {
    hide ParseValue;
    var s := p + g;
    assert s[0] == p[0] == '{';
    if |p| == 1 {
      assert s[1..] == g;
    } else {
      assert s[1..][0] == p[1] == '"';
      assert ParseBody(s[1..]) == Got("", s[1..][1..]);
      if |p| == 2 { assert s[1..][1..] == g; } else { assert s[1..][1..][0] == p[2] == 'o'; }
    }
  }

  function Shorter(a: nat, b: nat): nat { if a < b then a else b }

  lemma StartThenGlue(p: string, g: string)
    requires StartsALine(p) && Glue(g)
    ensures Glue(p + g)
  {
    hide ParseValue, ParseBody, Render, RenderFields;
    var r: Record :| p <= ToManifestLine(r);
    var line := ToManifestLine(r);
    LineStart(r);
    assert p == line[..|p|] && line[..3] == "{\"o";
    BodyIntoStart(p, g);
    if p == line {
      ParseUndoesRender(JObject(FieldsOf(r)), false, g);
    } else {
      CutObjectThenGlue(FieldsOf(r), false, |p|, g);
    }
  }

  lemma {:induction false} JoinIsGlue(parts: seq<string>)
    requires forall i | 0 <= i < |parts| :: StartsALine(parts[i])
    ensures Glue(Join(parts))
  {
    hide StartsALine, Glue;
    if parts == [] {
      NothingIsGlue();
    } else {
      JoinIsGlue(parts[1..]);
      StartThenGlue(parts[0], Join(parts[1..]));
    }
  }

  lemma NothingIsGlue()
    ensures Glue("")
  {
  }

  lemma CutThenGlue(r: Record, k: nat, g: string)
    requires 0 < k < |ToManifestLine(r)| && Glue(g)
    ensures ParseManifestLine(ToManifestLine(r)[..k] + g).None?
  {
    hide ParseValue, ParseBody, Render, RenderFields;
    CutObjectThenGlue(FieldsOf(r), false, k, g);
  }

  /** A line made of the beginnings of two or more records' lines is never a record, however many
      were run together and wherever each was torn. */
  lemma TornThenGluedIsUnreadable(parts: seq<string>)
    requires |parts| > 1 && forall i | 0 <= i < |parts| :: StartsALine(parts[i])
    ensures ParseManifestLine(Join(parts)).None?
  {
    hide ParseManifestLine, ToManifestLine, Glue;
    var more := Join(parts[1..]);
    var r: Record :| parts[0] <= ToManifestLine(r);
    assert parts[1..][0] == parts[1] && more != "";
    if parts[0] == ToManifestLine(r) {
      GluedLineIsUnreadable(r, more);
    } else {
      JoinIsGlue(parts[1..]);
      assert parts[0] == ToManifestLine(r)[..|parts[0]|];
      CutThenGlue(r, |parts[0]|, more);
    }
  }

  lemma LineIsOneLine(r: Record)
    ensures '\n' !in ToManifestLine(r) && ToManifestLine(r) != ""
  {
    hide RenderFields;
    RenderPrintable(JObject(FieldsOf(r)), false);
  }
}
