/** `ChronoSQL::execute`: statements against the mapper's tables. */
module SqlQuery {
  import opened Text
  import opened TimeSort
  import opened SqlLexer
  import opened SqlParser
  import opened SqlSchema
  import opened SqlMapper
  import opened SqlRoundTrip
  import SqlRows

  datatype Row = Row(time: nat, values: map<string, string>)

  /* ---- reading a story ---- */

  /** `eventToRow`: nothing for a payload that is not a JSON object. */
  function RowsOfEvent(e: Stamped<string>): seq<Row>
  {
    match SqlRows.DecodeRow(e.value) case Some(values) => [Row(e.time, values)] case None => []
  }

  /** The rows of these events, in their order; malformed events are skipped. */
  function RowsOf(events: seq<Stamped<string>>): seq<Row>
  {
    if events == [] then [] else RowsOf(events[..|events| - 1]) + RowsOfEvent(events[|events| - 1])
  }

  method ReadRows(events: seq<Stamped<string>>) returns (rows: seq<Row>)
    ensures rows == RowsOf(events)
  {
    rows := [];
    assert events[..0] == [];
    for i := 0 to |events|
      invariant rows == RowsOf(events[..i])
    {
      hide SqlRows.DecodeRow;
      assert events[..i + 1][..i] == events[..i];
      var e := events[i];
      match SqlRows.DecodeRow(e.value) {
        case Some(values) => rows := rows + [Row(e.time, values)];
        case None =>
      }
    }
    assert events[..|events|] == events;
  }

  /** The story's events with lo <= time < hi, in story order. */
  function Within(story: seq<Stamped<string>>, lo: nat, hi: nat): seq<Stamped<string>>
  {
    if story == [] then []
    else
      var e := story[|story| - 1];
      Within(story[..|story| - 1], lo, hi) + (if lo <= e.time < hi then [e] else [])
  }

  function Scan(story: seq<Stamped<string>>, lo: nat, hi: nat): seq<Row> { RowsOf(Within(story, lo, hi)) }

  /** What a WHERE clause asks of a row. */
  predicate Matches(r: Row, w: Where)
  {
    match w
    case Everything => true
    case Equal(c, v) => if v.isNull then c !in r.values else c in r.values && r.values[c] == v.text
    case TsBetween(lo, hi) => lo <= r.time <= hi
  }

  function Filter(rows: seq<Row>, w: Where): seq<Row>
  {
    if rows == [] then []
    else
      var before := Filter(rows[..|rows| - 1], w);
      if Matches(rows[|rows| - 1], w) then before + [rows[|rows| - 1]] else before
  }

  /** `erase(remove_if(...))`: what does not match goes. */
  method KeepMatching(rows: seq<Row>, w: Where) returns (kept: seq<Row>)
    ensures kept == Filter(rows, w)
  {
    kept := [];
    assert rows[..0] == [];
    for i := 0 to |rows|
      invariant kept == Filter(rows[..i], w)
    {
      assert rows[..i + 1][..i] == rows[..i];
      if Matches(rows[i], w) {
        kept := kept + [rows[i]];
      }
    }
    assert rows[..|rows|] == rows;
  }

  function ProjectRow(cols: seq<string>, r: Row): Row
  {
    r.(values := map c | c in r.values && c in cols && c != "__ts" :: r.values[c])
  }

  function Project(cols: seq<string>, rows: seq<Row>): seq<Row>
  {
    seq(|rows|, i requires 0 <= i < |rows| => ProjectRow(cols, rows[i]))
  }

  method ProjectRows(cols: seq<string>, rows: seq<Row>) returns (out: seq<Row>)
    ensures out == Project(cols, rows)
  {
    out := [];
    for i := 0 to |rows|
      invariant |out| == i && forall j | 0 <= j < i :: out[j] == ProjectRow(cols, rows[j])
    {
      var r := rows[i];
      var kept: map<string, string> := map[];
      for k := 0 to |cols|
        invariant kept == map c | c in r.values && c in cols[..k] && c != "__ts" :: r.values[c]
      {
        assert cols[..k + 1] == cols[..k] + [cols[k]];
        if cols[k] != "__ts" && cols[k] in r.values && cols[k] !in kept {
          kept := kept[cols[k] := r.values[cols[k]]];
        }
      }
      assert cols[..|cols|] == cols;
      out := out + [Row(r.time, kept)];
    }
  }

  const MIN_TS: nat := 1

  /** The half-open end of BETWEEN ... AND hi. */
  function EndOf(hi: uint64): uint64 { if hi == UINT64_MAX then UINT64_MAX else hi + 1 }

  /** A range no replay is asked for: empty, or starting at the last timestamp. */
  predicate BadRange(w: Where) { w.TsBetween? && (w.lo > w.hi || w.lo == UINT64_MAX) }

  /** The half-open range the engine replays for a WHERE. */
  function RangeOf(w: Where): (nat, nat)
  {
    match w
    case TsBetween(lo, hi) => (lo, EndOf(hi))
    case _ => (MIN_TS, UINT64_MAX)
  }

  /** The rows it makes of the replayed events. */
  function Fetched(w: Where, events: seq<Stamped<string>>): seq<Row>
  {
    if w.Equal? then Filter(RowsOf(events), w) else RowsOf(events)
  }

  /** `asked` is the range given to the replay, None when the range throws; `rows` is None when there is
      no replay or it throws. */
  method Fetch(w: Where, replay: Option<seq<Stamped<string>>>)
    returns (asked: Option<(nat, nat)>, rows: Option<seq<Row>>)
    ensures asked == if BadRange(w) then None else Some(RangeOf(w))
    ensures rows == if BadRange(w) || replay.None? then None else Some(Fetched(w, replay.value))
  {
    var lo, hi := MIN_TS, UINT64_MAX;
    if w.TsBetween? {
      lo, hi := w.lo, if w.hi == UINT64_MAX then UINT64_MAX else w.hi + 1;
      if lo >= hi { return None, None; }
    }
    asked := Some((lo, hi));
    if replay.None? { return asked, None; }
    var all := ReadRows(replay.value);
    if w.Equal? { all := KeepMatching(all, w); }
    rows := Some(all);
  }

  lemma {:induction false} KeepsEverything(rows: seq<Row>)
    ensures Filter(rows, Everything) == rows
  {
    if rows != [] {
      KeepsEverything(rows[..|rows| - 1]);
      assert rows == rows[..|rows| - 1] + [rows[|rows| - 1]];
    }
  }

  /* ---- SELECT is filter, then project ---- */

  /** Every event has a timestamp: 0 is how a failed append answers. */
  predicate Timed(story: seq<Stamped<string>>) { forall i | 0 <= i < |story| :: story[i].time >= 1 }

  /** Filtering one more event's row, if it has one. */
  lemma FilterMore(rows: seq<Row>, e: Stamped<string>, w: Where)
    requires w.TsBetween?
    ensures Filter(rows + RowsOfEvent(e), w) ==
            Filter(rows, w) + (if w.lo <= e.time <= w.hi then RowsOfEvent(e) else [])
  {
    hide SqlRows.DecodeRow;
    var more := RowsOfEvent(e);
    if more == [] {
      assert rows + more == rows;
    } else {
      assert (rows + more)[..|rows|] == rows;
    }
  }

  lemma RowsSnoc(events: seq<Stamped<string>>, e: Stamped<string>)
    ensures RowsOf(events + [e]) == RowsOf(events) + RowsOfEvent(e)
    ensures RowsOf(events + []) == RowsOf(events)
  {
    hide RowsOfEvent;
    assert (events + [e])[..|events|] == events && events + [] == events;
  }

  /** A full scan, one more event. */
  lemma ScanStep(story: seq<Stamped<string>>, lo: nat, hi: nat)
    requires story != []
    ensures var e := story[|story| - 1];
            Scan(story, lo, hi) ==
            Scan(story[..|story| - 1], lo, hi) + (if lo <= e.time < hi then RowsOfEvent(e) else [])
  {
    hide RowsOf;
    RowsSnoc(Within(story[..|story| - 1], lo, hi), story[|story| - 1]);
  }

  lemma {:induction false} RangeIsFilter(story: seq<Stamped<string>>, lo: uint64, hi: uint64)
    requires Timed(story)
    ensures Scan(story, lo, EndOf(hi)) == Filter(Scan(story, MIN_TS, UINT64_MAX), TsBetween(lo, hi))
  {
    hide RowsOfEvent, Filter;
    if story == [] {
      NothingFiltered(TsBetween(lo, hi));
    } else {
      hide Scan;
      var n := |story| - 1;
      RangeIsFilter(story[..n], lo, hi);
      ScanStep(story, lo, EndOf(hi));
      ScanStep(story, MIN_TS, UINT64_MAX);
      FilterMore(Scan(story[..n], MIN_TS, UINT64_MAX), story[n], TsBetween(lo, hi));
      assert Scan(story[..n], MIN_TS, UINT64_MAX) + [] == Scan(story[..n], MIN_TS, UINT64_MAX);
    }
  }

  lemma NothingFiltered(w: Where)
    ensures Filter([], w) == []
  {
  }

  /** Where it throws, the filter would simply be empty. */
  lemma {:induction false} ThrownRangeIsEmpty(story: seq<Stamped<string>>, lo: uint64, hi: uint64)
    requires lo > hi || lo == UINT64_MAX
    ensures Filter(Scan(story, MIN_TS, UINT64_MAX), TsBetween(lo, hi)) == []
  {
    hide RowsOfEvent, Filter;
    if story == [] {
      NothingFiltered(TsBetween(lo, hi));
    } else {
      hide Scan;
      var n := |story| - 1;
      ThrownRangeIsEmpty(story[..n], lo, hi);
      ScanStep(story, MIN_TS, UINT64_MAX);
      FilterMore(Scan(story[..n], MIN_TS, UINT64_MAX), story[n], TsBetween(lo, hi));
      assert Scan(story[..n], MIN_TS, UINT64_MAX) + [] == Scan(story[..n], MIN_TS, UINT64_MAX);
    }
  }

  /* ---- whatever order the replay comes in ---- */

  /** A replay of the range a WHERE asks for: all its events, in any order. */
  ghost predicate Answers(story: seq<Stamped<string>>, w: Where, events: seq<Stamped<string>>)
  {
    multiset(events) == multiset(Within(story, RangeOf(w).0, RangeOf(w).1))
  }

  lemma {:induction false} RowsConcat(a: seq<Stamped<string>>, b: seq<Stamped<string>>)
    ensures RowsOf(a + b) == RowsOf(a) + RowsOf(b)
  {
    hide RowsOfEvent;
    if b == [] {
      assert a + b == a;
    } else {
      var n := |b| - 1;
      RowsConcat(a, b[..n]);
      assert (a + b)[..|a + b| - 1] == a + b[..n];
    }
  }

  lemma {:induction false} FilterConcat(a: seq<Row>, b: seq<Row>, w: Where)
    ensures Filter(a + b, w) == Filter(a, w) + Filter(b, w)
  {
    hide Matches;
    if b == [] {
      assert a + b == a;
    } else {
      var n := |b| - 1;
      FilterConcat(a, b[..n], w);
      assert (a + b)[..|a + b| - 1] == a + b[..n];
    }
  }

  /** Filtered, projected rows of the events. */
  function Answered(events: seq<Stamped<string>>, w: Where, cols: seq<string>): seq<Row>
  {
    Project(cols, Filter(RowsOf(events), w))
  }

  lemma AnsweredConcat(a: seq<Stamped<string>>, b: seq<Stamped<string>>, w: Where, cols: seq<string>)
    ensures Answered(a + b, w, cols) == Answered(a, w, cols) + Answered(b, w, cols)
  {
    hide RowsOf, Filter, ProjectRow;
    RowsConcat(a, b);
    FilterConcat(RowsOf(a), RowsOf(b), w);
  }

  lemma TakeOut<T>(s: seq<T>, i: nat)
    requires i < |s|
    ensures s == s[..i] + [s[i]] + s[i + 1..]
    ensures multiset(s[..i] + s[i + 1..]) == multiset(s) - multiset{s[i]}
  {
    assert s == s[..i] + [s[i]] + s[i + 1..];
  }

  /** The same events in another order give the same rows in another order. */
  lemma {:induction false} AnsweredInAnyOrder(a: seq<Stamped<string>>, b: seq<Stamped<string>>, w: Where,
                                              cols: seq<string>)
    requires multiset(a) == multiset(b)
    ensures multiset(Answered(a, w, cols)) == multiset(Answered(b, w, cols))
    decreases |a|
  {
    hide Answered;
    if a == [] {
      assert |multiset(b)| == 0;
    } else {
      var n := |a| - 1;
      var e := a[n];
      assert e in multiset(b);
      var i :| 0 <= i < |b| && b[i] == e;
      TakeOut(b, i);
      TakeOut(a, n);
      assert a[..n] + a[n + 1..] == a[..n] && a == a[..n] + [e];
      AnsweredInAnyOrder(a[..n], b[..i] + b[i + 1..], w, cols);
      AnsweredConcat(a[..n], [e], w, cols);
      AnsweredConcat(b[..i], b[i + 1..], w, cols);
      AnsweredConcat(b[..i] + [e], b[i + 1..], w, cols);
      AnsweredConcat(b[..i], [e], w, cols);
    }
  }

  /** Rows of events in a BETWEEN's range all match it. */
  lemma {:induction false} RangeMatches(events: seq<Stamped<string>>, w: Where)
    requires w.TsBetween? && forall e | e in events :: w.lo <= e.time <= w.hi
    ensures Filter(RowsOf(events), w) == RowsOf(events)
  {
    hide RowsOfEvent;
    if events == [] {
    } else {
      var n := |events| - 1;
      RangeMatches(events[..n], w);
      FilterMore(RowsOf(events[..n]), events[n], w);
    }
  }

  lemma {:induction false} WithinRange(story: seq<Stamped<string>>, lo: nat, hi: nat)
    ensures forall e | e in Within(story, lo, hi) :: lo <= e.time < hi
  {
    if story != [] { WithinRange(story[..|story| - 1], lo, hi); }
  }

  lemma FetchedIsFiltered(story: seq<Stamped<string>>, w: Where, events: seq<Stamped<string>>)
    requires Answers(story, w, events)
    ensures Fetched(w, events) == Filter(RowsOf(events), w)
  {
    hide RowsOf, Filter;
    match w {
      case Equal(_, _) =>
      case Everything => KeepsEverything(RowsOf(events));
      case TsBetween(lo, hi) =>
        WithinRange(story, lo, EndOf(hi));
        forall e | e in events ensures w.lo <= e.time <= w.hi {
          assert e in multiset(events);
          assert e in multiset(Within(story, lo, EndOf(hi)));
        }
        RangeMatches(events, w);
    }
  }

  lemma ScannedIsFiltered(story: seq<Stamped<string>>, w: Where)
    requires Timed(story)
    ensures Filter(RowsOf(Within(story, RangeOf(w).0, RangeOf(w).1)), w) == Filter(Scan(story, MIN_TS, UINT64_MAX), w)
  {
    hide RowsOf, Filter;
    if w.TsBetween? {
      RangeIsFilter(story, w.lo, w.hi);
      FetchedIsFiltered(story, w, Within(story, RangeOf(w).0, RangeOf(w).1));
    }
  }

  /** A SELECT's rows, projected, are those of the unrestricted scan filtered by its WHERE: the very same
      sequence when the replay keeps story order, and the same rows each as often in whatever order it
      comes. */
  lemma SelectIsFilter(story: seq<Stamped<string>>, w: Where, events: seq<Stamped<string>>, cols: seq<string>)
    requires Timed(story) && Answers(story, w, events)
    ensures var all := Project(cols, Filter(Scan(story, MIN_TS, UINT64_MAX), w));
            Project(cols, Fetched(w, events)) == Answered(events, w, cols) &&
            multiset(Project(cols, Fetched(w, events))) == multiset(all) &&
            (events == Within(story, RangeOf(w).0, RangeOf(w).1) ==> Project(cols, Fetched(w, events)) == all)
  {
    hide RowsOf, Filter, Fetched, Scan, Project;
    FetchedIsFiltered(story, w, events);
    ScannedIsFiltered(story, w);
    AnsweredInAnyOrder(events, Within(story, RangeOf(w).0, RangeOf(w).1), w, cols);
  }

  /* ---- INSERT ---- */

  /** The row of the first k names: NULLs are left out, and the first value of a repeated name stays. */
  function RowOf(names: seq<string>, values: seq<Literal>, k: nat): map<string, string>
    requires k <= |names| == |values|
  {
    if k == 0 then map[]
    else
      var before := RowOf(names, values, k - 1);
      if values[k - 1].isNull || names[k - 1] in before then before
      else before[names[k - 1] := values[k - 1].text]
  }

  method BuildRow(names: seq<string>, values: seq<Literal>) returns (row: map<string, string>)
    requires |names| == |values|
    ensures row == RowOf(names, values, |names|)
  {
    row := map[];
    for i := 0 to |names|
      invariant row == RowOf(names, values, i)
    {
      if values[i].isNull { continue; }
      if names[i] !in row {
        row := row[names[i] := values[i].text];
      }
    }
  }

  /** With distinct names the row holds exactly the values that are not NULL. */
  lemma {:induction false} RowHoldsItsValues(names: seq<string>, values: seq<Literal>, k: nat)
    requires k <= |names| == |values| && Distinct(names)
    ensures var row := RowOf(names, values, k);
            (forall c | c in row :: exists i :: 0 <= i < k && names[i] == c && !values[i].isNull) &&
            (forall i | 0 <= i < k :: if values[i].isNull then names[i] !in row
                                      else names[i] in row && row[names[i]] == values[i].text)
  {
    if k > 0 {
      RowHoldsItsValues(names, values, k - 1);
      var before := RowOf(names, values, k - 1);
      assert names[k - 1] !in before;
    }
  }

  function NamesOf(s: Schema): (r: seq<string>)
    ensures |r| == |s.columns| && forall i | 0 <= i < |r| :: r[i] == s.columns[i].name
  {
    seq(|s.columns|, i requires 0 <= i < |s.columns| => s.columns[i].name)
  }

  /* ---- execute ---- */

  datatype Answer =
    | Nothing
    | Inserted(time: nat)
    | Rows(columns: seq<string>, rows: seq<Row>)
    | ParseError(at: nat)
    | Refused(outcome: Outcome)

  function AnswerOf(r: Outcome): Answer { if r == Done then Nothing else Refused(r) }

  ghost function InsertValues(db: Db, stmt: Statement, load: Load, append: Append): (Db, Answer)
    requires stmt.Insert?
  {
    match LoadStep(db, load)
    case None => (db, Refused(Failed))
    case Some(d) =>
      if stmt.table !in d.meta.schemas then (d, Refused(Failed))
      else
        var names := if stmt.names == [] then NamesOf(d.meta.schemas[stmt.table]) else stmt.names;
        if |names| != |stmt.values| then (d, Refused(Invalid))
        else
          var (e, r) := InsertStep(d, stmt.table, RowOf(names, stmt.values, |names|), load, append);
          (e, if r == Done then Inserted(if append.Stored? then append.time else 0) else Refused(r))
  }

  /** `projectionColumns`. */
  function ColumnsOf(s: Schema, stmt: Statement): seq<string>
    requires stmt.Select?
  {
    if stmt.projection == [] then NamesOf(s) else stmt.projection
  }

  /** `replay`: what the range asked for came back as, None when that threw. */
  ghost function SelectRows(db: Db, stmt: Statement, load: Load, replay: Option<seq<Stamped<string>>>): (Db, Answer)
    requires stmt.Select?
  {
    match LoadStep(db, load)
    case None => (db, Refused(Failed))
    case Some(d) =>
      if stmt.table !in d.meta.schemas then (d, Refused(Failed))
      else
        if BadRange(stmt.where) then (d, Refused(Invalid))
        else if replay.None? then (d, Refused(Failed))
        else
          var cols := ColumnsOf(d.meta.schemas[stmt.table], stmt);
          (d, Rows(cols, Project(cols, Fetched(stmt.where, replay.value))))
  }

  ghost function Execution(db: Db, stmt: Statement, load: Load, append: Append, replay: Option<seq<Stamped<string>>>)
    : (Db, Answer)
  {
    match stmt
    case CreateTable(table, columns) =>
      var (d, r) := CreateStep(db, table, columns, load, append);
      (d, AnswerOf(r))
    case DropTable(table) =>
      var (d, r) := DropStep(db, table, load, append);
      (d, AnswerOf(r))
    case Insert(_, _, _) => InsertValues(db, stmt, load, append)
    case Select(_, _, _) => SelectRows(db, stmt, load, replay)
  }

  method ExecuteInsert(m: Mapper, stmt: Statement, load: Load, append: Append) returns (a: Answer, ghost used: Load)
    requires stmt.Insert? && m.Valid()
    modifies m, m.metadata
    ensures m.Valid() && Sorts(used, load)
    ensures (m.Now(), a) == InsertValues(old(m.Now()), stmt, used, append)
  {
    hide SortByTime, Replay, SqlRows.EncodeRow;
    var ok: bool;
    ok, used := m.EnsureLoaded(load);
    if !ok { return Refused(Failed), used; }
    if stmt.table !in m.metadata.schemas { return Refused(Failed), used; }
    var names := if stmt.names == [] then NamesOf(m.metadata.schemas[stmt.table]) else stmt.names;
    if |names| != |stmt.values| { return Refused(Invalid), used; }
    var row := BuildRow(names, stmt.values);
    var r, _ := m.Insert(stmt.table, row, load, append);
    a := if r == Done then Inserted(if append.Stored? then append.time else 0) else Refused(r);
  }

  method ExecuteSelect(m: Mapper, stmt: Statement, load: Load, replay: Option<seq<Stamped<string>>>)
    returns (a: Answer, ghost used: Load)
    requires stmt.Select? && m.Valid()
    modifies m, m.metadata
    ensures m.Valid() && Sorts(used, load)
    ensures (m.Now(), a) == SelectRows(old(m.Now()), stmt, used, replay)
  {
    hide SortByTime, Replay, Fetched, Project;
    var ok: bool;
    ok, used := m.EnsureLoaded(load);
    if !ok { return Refused(Failed), used; }
    if stmt.table !in m.metadata.schemas { return Refused(Failed), used; }
    var asked, rows := Fetch(stmt.where, replay);
    if asked.None? { return Refused(Invalid), used; }
    if rows.None? { return Refused(Failed), used; }
    var cols := ColumnsOf(m.metadata.schemas[stmt.table], stmt);
    var out := ProjectRows(cols, rows.value);
    a := Rows(cols, out);
  }

  method Execute(m: Mapper, sql: string, load: Load, append: Append, replay: Option<seq<Stamped<string>>>)
    returns (a: Answer, ghost used: Load)
    requires m.Valid()
    modifies m, m.metadata
    ensures m.Valid() && Sorts(used, load)
    ensures match ParseStatement(sql)
            case Error(at) => a == ParseError(at) && m.Now() == old(m.Now())
            case Ok(stmt) => (m.Now(), a) == Execution(old(m.Now()), stmt, used, append, replay)
  {
    hide ParseStatement, CreateStep, DropStep, InsertValues, SelectRows;
    used := Sorting(load);
    var parsed := ParseSql(sql);
    if parsed.Error? { return ParseError(parsed.at), used; }
    var stmt := parsed.value;
    match stmt {
      case CreateTable(table, columns) =>
        var r: Outcome;
        r, used := m.CreateTable(table, columns, load, append);
        a := AnswerOf(r);
      case DropTable(table) =>
        var r: Outcome;
        r, used := m.DropTable(table, load, append);
        a := AnswerOf(r);
      case Insert(_, _, _) => a, used := ExecuteInsert(m, stmt, load, append);
      case Select(_, _, _) => a, used := ExecuteSelect(m, stmt, load, replay);
    }
  }

  /** A SELECT written out and executed: an unknown table and a bad range are refused, a replay that
      fails is an error, and otherwise the answer is the rows of the table's unrestricted scan, filtered
      by the WHERE and then projected, in the order the replay brought them. */
  lemma SelectAnswers(db: Db, stmt: Statement, load: Load, append: Append, replay: Option<seq<Stamped<string>>>)
    requires stmt.Select? && WellFormed(stmt) && db.loaded && Timed(StoryOf(db, stmt.table))
    requires replay.Some? ==> Answers(StoryOf(db, stmt.table), stmt.where, replay.value)
    ensures ParseStatement(RenderStatement(stmt)) == Ok(stmt)
    ensures var (after, answer) := Execution(db, stmt, load, append, replay);
            after == db &&
            if stmt.table !in db.meta.schemas then answer == Refused(Failed)
            else if BadRange(stmt.where) then answer == Refused(Invalid)
            else if replay.None? then answer == Refused(Failed)
            else
              var cols := ColumnsOf(db.meta.schemas[stmt.table], stmt);
              var all := Project(cols, Filter(Scan(StoryOf(db, stmt.table), MIN_TS, UINT64_MAX), stmt.where));
              answer == Rows(cols, Answered(replay.value, stmt.where, cols)) &&
              multiset(answer.rows) == multiset(all) &&
              (replay.value == Within(StoryOf(db, stmt.table), RangeOf(stmt.where).0, RangeOf(stmt.where).1) ==>
                answer.rows == all)
  {
    hide Fetched, Filter, Scan, Project, Answered, WellFormed, ParseStatement, RenderStatement, Within, RangeOf;
    hide StoryOf;
    ParseUndoesRender(stmt);
    if replay.Some? && stmt.table in db.meta.schemas {
      SelectIsFilter(StoryOf(db, stmt.table), stmt.where, replay.value, ColumnsOf(db.meta.schemas[stmt.table], stmt));
    }
  }

  /* ---- what a projection loses ---- */

  /** A projected row is the row itself exactly when it has no column that was not asked for. */
  lemma WholeRowExactly(cols: seq<string>, r: Row)
    ensures ProjectRow(cols, r) == r <==> forall c | c in r.values :: c in cols && c != "__ts"
  {
    if forall c | c in r.values :: c in cols && c != "__ts" {
      assert ProjectRow(cols, r).values == r.values;
    } else {
      var c :| c in r.values && !(c in cols && c != "__ts");
      assert c !in ProjectRow(cols, r).values;
    }
  }

  lemma MatchesProjected(cols: seq<string>, r: Row, w: Where)
    requires w.Equal? ==> w.column in cols && w.column != "__ts"
    ensures Matches(ProjectRow(cols, r), w) == Matches(r, w)
  {
  }

  /** Filtering before or after projecting gives the same rows when the column the WHERE looks at is
      among those asked for. */
  lemma {:induction false} FilterThenProject(cols: seq<string>, rows: seq<Row>, w: Where)
    requires w.Equal? ==> w.column in cols && w.column != "__ts"
    ensures Project(cols, Filter(rows, w)) == Filter(Project(cols, rows), w)
  {
    hide ProjectRow, Matches;
    if rows != [] {
      var n := |rows| - 1;
      FilterThenProject(cols, rows[..n], w);
      assert Project(cols, rows)[..n] == Project(cols, rows[..n]);
      MatchesProjected(cols, rows[n], w);
    }
  }

  /* ---- INSERT, then SELECT ---- */

  lemma ScanSnoc(story: seq<Stamped<string>>, e: Stamped<string>)
    requires MIN_TS <= e.time < UINT64_MAX
    ensures Scan(story + [e], MIN_TS, UINT64_MAX) == Scan(story, MIN_TS, UINT64_MAX) + RowsOfEvent(e)
  {
    hide RowsOfEvent, Scan;
    assert (story + [e])[..|story|] == story;
    ScanStep(story + [e], MIN_TS, UINT64_MAX);
  }

  function NamesFor(s: Schema, stmt: Statement): seq<string>
    requires stmt.Insert?
  {
    if stmt.names == [] then NamesOf(s) else stmt.names
  }

  lemma InsertAppends(db: Db, stmt: Statement, append: Append)
    requires stmt.Insert? && db.loaded && append.Stored?
    requires InsertValues(db, stmt, LoadFailed, append).1.Inserted?
    ensures stmt.table in db.meta.schemas
    ensures var schema := db.meta.schemas[stmt.table];
            var names := NamesFor(schema, stmt);
            |names| == |stmt.values| &&
            var row := RowOf(names, stmt.values, |names|);
            row.Keys <= Declared(schema) &&
            InsertValues(db, stmt, LoadFailed, append).0 == db.(stories := db.stories[stmt.table :=
              StoryOf(db, stmt.table) + [Stamped(append.time, SqlRows.EncodeRow(row))]])
  {
    hide RowOf, Declared, StoryOf, SqlRows.EncodeRow;
  }

  /** A stored INSERT is the last row of the next full scan, its values cut at their first NUL, and
      changes no other table. So the row comes back as inserted exactly when no value holds a NUL. */
  lemma InsertedRowIsSelected(db: Db, ops: seq<MetaOp>, stmt: Statement, append: Append)
    requires Inv(db, ops) && stmt.Insert? && db.loaded && append.Stored? && 1 <= append.time < UINT64_MAX
    requires InsertValues(db, stmt, LoadFailed, append).1.Inserted?
    ensures stmt.table in db.meta.schemas
    ensures var after := InsertValues(db, stmt, LoadFailed, append).0;
            var names := NamesFor(db.meta.schemas[stmt.table], stmt);
            |names| == |stmt.values| &&
            var row := RowOf(names, stmt.values, |names|);
            Scan(StoryOf(after, stmt.table), MIN_TS, UINT64_MAX) ==
              Scan(StoryOf(db, stmt.table), MIN_TS, UINT64_MAX) + [Row(append.time, SqlRows.CutValues(row))] &&
            (SqlRows.CutValues(row) == row <==> forall c | c in row :: NulFree(row[c])) &&
            forall t | t != stmt.table :: StoryOf(after, t) == StoryOf(db, t)
  {
    hide RowOf, Scan, InsertValues, SqlRows.EncodeRow, SqlRows.DecodeRow, SqlRows.CutValues, Inv, NulFree;
    InsertAppends(db, stmt, append);
    var schema := db.meta.schemas[stmt.table];
    var names := NamesFor(schema, stmt);
    var row := RowOf(names, stmt.values, |names|);
    DeclaredAreProper(db, ops, stmt.table);
    SqlRows.RowComesBackExactly(row);
    SqlRows.UncutExactly(row);
    ScanSnoc(StoryOf(db, stmt.table), Stamped(append.time, SqlRows.EncodeRow(row)));
  }

  lemma DeclaredAreProper(db: Db, ops: seq<MetaOp>, t: string)
    requires Inv(db, ops) && db.loaded && t in db.meta.schemas
    ensures forall c | c in Declared(db.meta.schemas[t]) :: NulFree(c) && !IsReserved(c)
  {
    hide NulFree, IsReserved, ProperOp, Encode;
    LiveNamesAreProper(ops, t);
  }

  lemma ProjectSnoc(cols: seq<string>, rows: seq<Row>, r: Row)
    ensures Project(cols, rows + [r]) == Project(cols, rows) + [ProjectRow(cols, r)]
  {
    hide ProjectRow;
  }

  /** SELECT * after an INSERT returns the rows it would have returned before and the stored one, with all
      its columns; and that one last when the replay keeps story order. */
  lemma SelectStarReturnsTheInsertedRow(db: Db, ops: seq<MetaOp>, stmt: Statement, append: Append,
                                        events: seq<Stamped<string>>)
    requires Inv(db, ops) && stmt.Insert? && db.loaded && append.Stored? && 1 <= append.time < UINT64_MAX
    requires InsertValues(db, stmt, LoadFailed, append).1.Inserted? && Timed(StoryOf(db, stmt.table))
    requires Answers(StoryOf(InsertValues(db, stmt, LoadFailed, append).0, stmt.table), Everything, events)
    ensures stmt.table in db.meta.schemas
    ensures var after := InsertValues(db, stmt, LoadFailed, append).0;
            var schema := db.meta.schemas[stmt.table];
            var names := NamesFor(schema, stmt);
            |names| == |stmt.values| &&
            var row := Row(append.time, SqlRows.CutValues(RowOf(names, stmt.values, |names|)));
            var before := Project(NamesOf(schema), Scan(StoryOf(db, stmt.table), MIN_TS, UINT64_MAX));
            var out := Answered(events, Everything, NamesOf(schema));
            SelectRows(after, Select(stmt.table, [], Everything), LoadFailed, Some(events)) ==
              (after, Rows(NamesOf(schema), out)) &&
            multiset(out) == multiset(before) + multiset{row} &&
            (events == Within(StoryOf(after, stmt.table), MIN_TS, UINT64_MAX) ==> out == before + [row])
  {
    hide RowOf, Scan, InsertValues, SqlRows.EncodeRow, SqlRows.CutValues, Inv, NulFree, StoryOf, Project, ProjectRow;
    hide Filter, Fetched, Within, Answered;
    InsertedRowIsSelected(db, ops, stmt, append);
    InsertAppends(db, stmt, append);
    var after := InsertValues(db, stmt, LoadFailed, append).0;
    var schema := db.meta.schemas[stmt.table];
    var names := NamesFor(schema, stmt);
    var row := Row(append.time, SqlRows.CutValues(RowOf(names, stmt.values, |names|)));
    InsertedRowIsWhole(db, ops, stmt.table, row, RowOf(names, stmt.values, |names|));
    ProjectSnoc(NamesOf(schema), Scan(StoryOf(db, stmt.table), MIN_TS, UINT64_MAX), row);
    KeepsEverything(Scan(StoryOf(after, stmt.table), MIN_TS, UINT64_MAX));
    StillTimed(db, after, stmt, append, ops);
    SelectIsFilter(StoryOf(after, stmt.table), Everything, events, NamesOf(schema));
  }

  lemma StillTimed(db: Db, after: Db, stmt: Statement, append: Append, ops: seq<MetaOp>)
    requires stmt.Insert? && db.loaded && append.Stored? && append.time >= 1 && Timed(StoryOf(db, stmt.table))
    requires InsertValues(db, stmt, LoadFailed, append).1.Inserted?
    requires after == InsertValues(db, stmt, LoadFailed, append).0
    ensures Timed(StoryOf(after, stmt.table))
  {
    hide InsertValues, SqlRows.EncodeRow, RowOf;
    InsertAppends(db, stmt, append);
  }

  lemma InsertedRowIsWhole(db: Db, ops: seq<MetaOp>, t: string, row: Row, values: map<string, string>)
    requires Inv(db, ops) && db.loaded && t in db.meta.schemas && values.Keys <= Declared(db.meta.schemas[t])
    requires row.values == SqlRows.CutValues(values)
    ensures ProjectRow(NamesOf(db.meta.schemas[t]), row) == row
  {
    hide Inv, NulFree, ProjectRow;
    DeclaredAreProper(db, ops, t);
    TsIsReserved();
    DeclaredAreNames(db.meta.schemas[t]);
    WholeRowExactly(NamesOf(db.meta.schemas[t]), row);
  }

  /* ---- DROP, then CREATE ---- */

  /** A table dropped and created again under its name selects every row its story ever got, before the
      drop as well, each cut to the new columns. */
  lemma RecreatedTableShowsOldRows(db: Db, ops: seq<MetaOp>, table: string, columns: seq<Column>, dropped: Append,
                                   created: Append, events: seq<Stamped<string>>)
    requires Inv(db, ops) && db.loaded && table in db.meta.schemas && ColumnsOk(columns) && table != ""
    requires !dropped.AppendFailed? && !created.AppendFailed?
    requires Timed(StoryOf(db, table)) && Answers(StoryOf(db, table), Everything, events)
    ensures var d := DropStep(db, table, LoadFailed, dropped);
            var c := CreateStep(d.0, table, columns, LoadFailed, created);
            var names := NamesOf(Schema(table, columns));
            var all := Project(names, Scan(StoryOf(db, table), MIN_TS, UINT64_MAX));
            var out := Answered(events, Everything, names);
            d.1 == Done && c.1 == Done && StoryOf(c.0, table) == StoryOf(db, table) &&
            SelectRows(c.0, Select(table, [], Everything), LoadFailed, Some(events)) == (c.0, Rows(names, out)) &&
            multiset(out) == multiset(all) &&
            (events == Within(StoryOf(db, table), MIN_TS, UINT64_MAX) ==> out == all)
  {
    hide Scan, Inv, Project, Filter, Fetched, Within, Answered, Encode, ColumnsOk, IsReserved;
    InvGives(db, ops);
    NamesOfRun(db, ops, table);
    var names := NamesOf(Schema(table, columns));
    SelectIsFilter(StoryOf(db, table), Everything, events, names);
    KeepsEverything(Scan(StoryOf(db, table), MIN_TS, UINT64_MAX));
  }

  lemma NamesOfRun(db: Db, ops: seq<MetaOp>, table: string)
    requires Inv(db, ops) && db.loaded && table in db.meta.schemas
    ensures !IsReserved(table)
  {
    hide ProperOp, Encode, IsReserved;
    LiveNamesAreProper(ops, table);
  }

  lemma DeclaredAreNames(schema: Schema)
    ensures forall c | c in Declared(schema) :: c in NamesOf(schema)
  {
    forall c | c in Declared(schema) ensures c in NamesOf(schema) {
      var i :| 0 <= i < |schema.columns| && schema.columns[i].name == c;
      assert NamesOf(schema)[i] == c;
    }
  }

  lemma TsIsReserved()
    ensures IsReserved("__ts")
  {
  }
}
