/** What a WHERE selects, row by row, and what an INSERT adds to it. */
module SqlAnswers {
  import opened Text
  import opened TimeSort
  import opened SqlParser
  import opened SqlSchema
  import opened SqlMapper
  import opened SqlQuery
  import SqlRows

  /* ---- how often a row is in the answer ---- */

  lemma {:induction false} FilterCounts(rows: seq<Row>, w: Where, r: Row)
    ensures multiset(Filter(rows, w))[r] == if Matches(r, w) then multiset(rows)[r] else 0
  {
    hide Matches;
    if rows != [] {
      var n := |rows| - 1;
      FilterCounts(rows[..n], w, r);
      assert rows == rows[..n] + [rows[n]];
    }
  }

  lemma {:induction false} RowsInAnyOrder(a: seq<Stamped<string>>, b: seq<Stamped<string>>)
    requires multiset(a) == multiset(b)
    ensures multiset(RowsOf(a)) == multiset(RowsOf(b))
    decreases |a|
  {
    hide RowsOf;
    if a == [] {
      assert |multiset(b)| == 0;
    } else {
      var n := |a| - 1;
      var e := a[n];
      assert e in multiset(b);
      var i :| 0 <= i < |b| && b[i] == e;
      TakeOut(b, i);
      TakeOut(a, n);
      assert a[..n] + a[n + 1..] == a[..n] && a == a[..n] + [e];
      RowsInAnyOrder(a[..n], b[..i] + b[i + 1..]);
      RowsConcat(a[..n], [e]);
      RowsConcat(b[..i], b[i + 1..]);
      RowsConcat(b[..i] + [e], b[i + 1..]);
      RowsConcat(b[..i], [e]);
    }
  }

  /** A row of the full scan is fetched as often as it was scanned, or not at all: without a WHERE always;
      for `c = 'v'` if it has a value under c and that value is v; for `c = NULL` if it has none; for a
      BETWEEN if its time is in the range. */
  lemma FetchedExactly(story: seq<Stamped<string>>, w: Where, events: seq<Stamped<string>>, r: Row)
    requires Timed(story) && Answers(story, w, events)
    ensures var all, kept := multiset(Scan(story, MIN_TS, UINT64_MAX))[r], multiset(Fetched(w, events))[r];
            match w
            case Everything => kept == all
            case Equal(c, Literal(text, isNull)) =>
              if isNull then kept == (if c in r.values then 0 else all)
              else kept == if c in r.values && r.values[c] == text then all else 0
            case TsBetween(lo, hi) => kept == if r.time < lo || r.time > hi then 0 else all
  {
    hide RowsOf, Filter, Fetched, Within;
    FetchedIsFiltered(story, w, events);
    ScannedIsFiltered(story, w);
    var asked := Within(story, RangeOf(w).0, RangeOf(w).1);
    RowsInAnyOrder(events, asked);
    FilterCounts(RowsOf(events), w, r);
    FilterCounts(RowsOf(asked), w, r);
    FilterCounts(Scan(story, MIN_TS, UINT64_MAX), w, r);
  }

  /** The k-th row of the projection: the same time, and the same value under each column asked for. */
  lemma ProjectedExactly(cols: seq<string>, rows: seq<Row>, k: nat, c: string)
    requires k < |rows|
    ensures |Project(cols, rows)| == |rows| && Project(cols, rows)[k].time == rows[k].time
    ensures var out := Project(cols, rows)[k].values;
            (c in out ==> c in rows[k].values && out[c] == rows[k].values[c]) &&
            (c in cols && c != "__ts" && c in rows[k].values ==> c in out) &&
            (c !in cols || c == "__ts" ==> c !in out)
  {
  }

  /* ---- INSERT, then SELECT ... WHERE ---- */

  lemma FilterOneMore(rows: seq<Row>, r: Row, w: Where)
    ensures Filter(rows + [r], w) == Filter(rows, w) + if Matches(r, w) then [r] else []
  {
    hide Matches;
    assert (rows + [r])[..|rows|] == rows;
    if !Matches(r, w) { assert Filter(rows, w) + [] == Filter(rows, w); }
  }

  lemma AnsweredOneMore(cols: seq<string>, rows: seq<Row>, r: Row, w: Where)
    requires ProjectRow(cols, r) == r
    ensures Project(cols, Filter(rows + [r], w)) == Project(cols, Filter(rows, w)) + if Matches(r, w) then [r] else []
  {
    hide Matches, Filter, ProjectRow;
    FilterOneMore(rows, r, w);
    if Matches(r, w) {
      ProjectSnoc(cols, Filter(rows, w), r);
    } else {
      assert Filter(rows, w) + [] == Filter(rows, w);
      assert Project(cols, Filter(rows, w)) + [] == Project(cols, Filter(rows, w));
    }
  }

  /** The answer to a SELECT of all columns after a stored INSERT has the rows it had before and, exactly
      when the inserted row is what the WHERE asks for, that row. */
  lemma InsertAddsToAnswer(db: Db, ops: seq<MetaOp>, stmt: Statement, append: Append, w: Where,
                           before: seq<Stamped<string>>, events: seq<Stamped<string>>)
    requires Inv(db, ops) && stmt.Insert? && db.loaded && append.Stored? && 1 <= append.time < UINT64_MAX
    requires InsertValues(db, stmt, LoadFailed, append).1.Inserted? && Timed(StoryOf(db, stmt.table))
    requires Answers(StoryOf(db, stmt.table), w, before)
    requires Answers(StoryOf(InsertValues(db, stmt, LoadFailed, append).0, stmt.table), w, events)
    ensures stmt.table in db.meta.schemas
    ensures var schema := db.meta.schemas[stmt.table];
            var names := NamesFor(schema, stmt);
            |names| == |stmt.values| &&
            var row := Row(append.time, SqlRows.CutValues(RowOf(names, stmt.values, |names|)));
            var asked := match w
                         case Everything => true
                         case Equal(c, Literal(text, isNull)) =>
                           if isNull then c !in row.values else c in row.values && row.values[c] == text
                         case TsBetween(lo, hi) => lo <= append.time && append.time <= hi;
            multiset(Answered(events, w, NamesOf(schema))) ==
            multiset(Answered(before, w, NamesOf(schema))) + (if asked then multiset{row} else multiset{})
  {
    hide RowOf, Scan, InsertValues, SqlRows.EncodeRow, SqlRows.CutValues, Inv, NulFree, StoryOf, Project, ProjectRow;
    hide Filter, Fetched, Within, Answered, Answers, Timed;
    InsertedRowIsSelected(db, ops, stmt, append);
    InsertAppends(db, stmt, append);
    var after := InsertValues(db, stmt, LoadFailed, append).0;
    var schema := db.meta.schemas[stmt.table];
    var names := NamesFor(schema, stmt);
    var row := Row(append.time, SqlRows.CutValues(RowOf(names, stmt.values, |names|)));
    InsertedRowIsWhole(db, ops, stmt.table, row, RowOf(names, stmt.values, |names|));
    AnsweredOneMore(NamesOf(schema), Scan(StoryOf(db, stmt.table), MIN_TS, UINT64_MAX), row, w);
    StillTimed(db, after, stmt, append, ops);
    SelectIsFilter(StoryOf(db, stmt.table), w, before, NamesOf(schema));
    SelectIsFilter(StoryOf(after, stmt.table), w, events, NamesOf(schema));
  }

  /** In the statement's own terms, for distinct names and values without a NUL: `SELECT * WHERE c = 'v'`
      gains the row exactly when v is written under c, and `WHERE c = NULL` exactly when nothing or NULL
      is. */
  lemma InsertIsFoundByItsValue(db: Db, ops: seq<MetaOp>, stmt: Statement, append: Append, c: string, v: Literal,
                                before: seq<Stamped<string>>, events: seq<Stamped<string>>)
    requires Inv(db, ops) && stmt.Insert? && db.loaded && append.Stored? && 1 <= append.time < UINT64_MAX
    requires InsertValues(db, stmt, LoadFailed, append).1.Inserted? && Timed(StoryOf(db, stmt.table))
    requires Answers(StoryOf(db, stmt.table), Equal(c, v), before)
    requires Answers(StoryOf(InsertValues(db, stmt, LoadFailed, append).0, stmt.table), Equal(c, v), events)
    requires forall i | 0 <= i < |stmt.values| :: NulFree(stmt.values[i].text)
    requires stmt.table in db.meta.schemas && Distinct(NamesFor(db.meta.schemas[stmt.table], stmt))
    ensures var schema := db.meta.schemas[stmt.table];
            var names := NamesFor(schema, stmt);
            |names| == |stmt.values| &&
            var row := Row(append.time, RowOf(names, stmt.values, |names|));
            var asked := if v.isNull then forall i | 0 <= i < |names| && names[i] == c :: stmt.values[i].isNull
                         else exists i :: 0 <= i < |names| && names[i] == c && stmt.values[i] == Literal(v.text, false);
            multiset(Answered(events, Equal(c, v), NamesOf(schema))) ==
            multiset(Answered(before, Equal(c, v), NamesOf(schema))) + (if asked then multiset{row} else multiset{})
  {
    hide RowOf, Scan, InsertValues, SqlRows.CutValues, Inv, NulFree, StoryOf, Answered, Answers, Timed, Distinct;
    InsertAddsToAnswer(db, ops, stmt, append, Equal(c, v), before, events);
    InsertedRowIsSelected(db, ops, stmt, append);
    var names := NamesFor(db.meta.schemas[stmt.table], stmt);
    var row := RowOf(names, stmt.values, |names|);
    RowHoldsItsValues(names, stmt.values, |names|);
    forall d | d in row ensures NulFree(row[d]) {
      var i :| 0 <= i < |names| && names[i] == d && !stmt.values[i].isNull;
    }
    if c in row { var i :| 0 <= i < |names| && names[i] == c && !stmt.values[i].isNull; }
  }

  /* ---- edges ---- */

  predicate IsBetween(lo: nat, t: nat, hi: nat) { lo <= t && t <= hi }

  /** The ranges that are refused are exactly those no timestamp below the last one can be in. */
  lemma RefusedRangeExactly(lo: uint64, hi: uint64)
    ensures BadRange(TsBetween(lo, hi)) <==> forall t: nat | t < UINT64_MAX :: !IsBetween(lo, t, hi)
  {
    assert IsBetween(lo, lo, hi) <==> lo <= hi;
  }

  /** Of several values for one name the row has the first that is not NULL. */
  lemma {:induction false} FirstValueStays(names: seq<string>, values: seq<Literal>, k: nat, i: nat)
    requires i < k <= |names| == |values| && !values[i].isNull
    requires forall j | 0 <= j < i && names[j] == names[i] :: values[j].isNull
    ensures names[i] in RowOf(names, values, k) && RowOf(names, values, k)[names[i]] == values[i].text
  {
    if i == k - 1 { OnlyValuesAreKept(names, values, i, names[i]); } else { FirstValueStays(names, values, k - 1, i); }
  }

  lemma {:induction false} OnlyValuesAreKept(names: seq<string>, values: seq<Literal>, k: nat, c: string)
    requires k <= |names| == |values|
    ensures c in RowOf(names, values, k) <==> exists i :: 0 <= i < k && names[i] == c && !values[i].isNull
  {
    if k > 0 { OnlyValuesAreKept(names, values, k - 1, c); }
  }

  /** The full scan is everything the story holds, events stamped UINT64_MAX aside. */
  lemma {:induction false} ScanIsEverything(story: seq<Stamped<string>>)
    requires Timed(story) && forall i | 0 <= i < |story| :: story[i].time < UINT64_MAX
    ensures Scan(story, MIN_TS, UINT64_MAX) == RowsOf(story)
  {
    hide RowsOfEvent;
    if story != [] {
      hide Scan;
      ScanIsEverything(story[..|story| - 1]);
      ScanStep(story, MIN_TS, UINT64_MAX);
    } else {
      assert Within(story, MIN_TS, UINT64_MAX) == [];
    }
  }
}
