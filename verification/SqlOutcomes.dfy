/** Which CREATE, DROP and INSERT the mapper refuses, and what the others leave behind, in terms of the
    operations in the log. */
module SqlOutcomes {
  import opened Text
  import opened TimeSort
  import opened SqlParser
  import opened SqlSchema
  import opened SqlMapper
  import opened SqlQuery
  import opened SqlAnswers
  import SqlRows

  /** The process has its schemas, or its one replay brings them. */
  ghost predicate Knows(db: Db, ops: seq<MetaOp>, load: Load)
  {
    Inv(db, ops) && LoadOk(db, load) && (db.loaded || load.Replayed?)
  }

  /** A table exists when it was created and not dropped since. */
  predicate Exists(ops: seq<MetaOp>, table: string) { SchemaOf(ops, table).Some? }

  lemma AfterLoading(db: Db, ops: seq<MetaOp>, load: Load) returns (d: Db)
    requires Knows(db, ops, load)
    ensures LoadStep(db, load) == Some(d) && d == db.(meta := ApplyAll(ops), loaded := true)
    ensures forall t :: SchemaOf(ops, t) == if t in d.meta.schemas then Some(d.meta.schemas[t]) else None
  {
    hide Encode, Replay, NulFreeOp, SchemaOf, ApplyAll;
    d := LoadStep(db, load).value;
    LoadKeeps(db, ops, load);
    InvGives(d, ops);
    StateByTable(ops);
  }

  /** The log with one more operation, if the append stored it. */
  function Logged(db: Db, op: MetaOp, append: Append): seq<Stamped<string>>
  {
    if append.Stored? then db.metaLog + [Stamped(append.time, Encode(op))] else db.metaLog
  }

  lemma ApplyLast(ops: seq<MetaOp>, op: MetaOp)
    ensures ApplyAll(ops + [op]) == ApplyOp(ApplyAll(ops), op)
  {
    assert (ops + [op])[..|ops|] == ops;
  }

  /** CREATE: invalid for an empty or reserved name, no columns, or a column that is empty, reserved or
      repeated; refused when the table exists or the append throws; and otherwise in memory, with exactly
      its encoding behind the log. No table's rows change. */
  lemma CreateExactly(db: Db, ops: seq<MetaOp>, name: string, cs: seq<Column>, load: Load, append: Append)
    requires Knows(db, ops, load)
    ensures var (d, r) := CreateStep(db, name, cs, load, append);
            var invalid := name == "" || "__" <= name || cs == [] ||
                           (exists i :: 0 <= i < |cs| && (cs[i].name == "" || "__" <= cs[i].name)) ||
                           (exists i, j :: 0 <= i < j < |cs| && cs[i].name == cs[j].name);
            r == (if invalid then Invalid else if Exists(ops, name) || append.AppendFailed? then Failed else Done) &&
            d.stories == db.stories &&
            if r == Done then
              d.loaded && d.metaLog == Logged(db, Create(name, cs), append) &&
              d.meta == ApplyAll(ops + [Create(name, cs)])
            else d.metaLog == db.metaLog && (d == db || d == db.(meta := ApplyAll(ops), loaded := true))
  {
    hide Encode, ApplyAll, ApplyOp, LoadStep, Knows, SchemaOf;
    var d := AfterLoading(db, ops, load);
    ApplyLast(ops, Create(name, cs));
    ReservedIsPrefix(name);
    forall i | 0 <= i < |cs| ensures IsReserved(cs[i].name) <==> "__" <= cs[i].name { ReservedIsPrefix(cs[i].name); }
  }

  lemma ReservedIsPrefix(s: string)
    ensures IsReserved(s) <==> "__" <= s
  {
    if "__" <= s { assert s[0] == "__"[0] && s[1] == "__"[1]; }
  }

  /** DROP: refused when there is no such table or the append throws; otherwise gone from memory, with
      exactly its encoding behind the log, and its rows untouched. */
  lemma DropExactly(db: Db, ops: seq<MetaOp>, name: string, load: Load, append: Append)
    requires Knows(db, ops, load)
    ensures var (d, r) := DropStep(db, name, load, append);
            r == (if !Exists(ops, name) || append.AppendFailed? then Failed else Done) &&
            d.stories == db.stories && d.loaded &&
            if r == Done then
              d.metaLog == Logged(db, Drop(name), append) && d.meta == ApplyAll(ops + [Drop(name)])
            else d.metaLog == db.metaLog && d.meta == ApplyAll(ops)
  {
    hide Encode, ApplyAll, ApplyOp, LoadStep, Knows, SchemaOf;
    var d := AfterLoading(db, ops, load);
    ApplyLast(ops, Drop(name));
  }

  /** INSERT: refused when there is no such table, invalid when the row has a column the table's latest
      CREATE did not declare, refused when the append throws; otherwise the table's story, and no other,
      gains exactly the row's encoding if the append stored it. */
  lemma InsertExactly(db: Db, ops: seq<MetaOp>, table: string, row: map<string, string>, load: Load, append: Append)
    requires Knows(db, ops, load)
    ensures var (d, r) := InsertStep(db, table, row, load, append);
            d.metaLog == db.metaLog && d.loaded && d.meta == ApplyAll(ops) &&
            r == (if !Exists(ops, table) then Failed
                  else if exists c :: c in row && forall k | k in SchemaOf(ops, table).value.columns :: k.name != c
                  then Invalid
                  else if append.AppendFailed? then Failed else Done) &&
            (forall t | t != table || r != Done || !append.Stored? :: StoryOf(d, t) == StoryOf(db, t)) &&
            (r == Done && append.Stored? ==>
               StoryOf(d, table) == StoryOf(db, table) + [Stamped(append.time, SqlRows.EncodeRow(row))])
  {
    hide Encode, ApplyAll, ApplyOp, LoadStep, Knows, SchemaOf, SqlRows.EncodeRow;
    var d := AfterLoading(db, ops, load);
    if table in d.meta.schemas {
      var declared := Declared(d.meta.schemas[table]);
      if !(row.Keys <= declared) {
        var c :| c in row && c !in declared;
        assert forall k | k in d.meta.schemas[table].columns :: k.name in declared;
      }
    }
  }

  /** What executing an INSERT answers: an unknown table and an append that throws are failures; a number of
      values that is not that of the names, given or declared, and a value that is not NULL for an undeclared
      column are invalid; otherwise it is the timestamp of the stored row, or 0. */
  lemma InsertAnswers(db: Db, ops: seq<MetaOp>, stmt: Statement, load: Load, append: Append)
    requires Knows(db, ops, load) && stmt.Insert?
    ensures var answer := InsertValues(db, stmt, load, append).1;
            if !Exists(ops, stmt.table) then answer == Refused(Failed)
            else
              var columns := SchemaOf(ops, stmt.table).value.columns;
              var n := if stmt.names == [] then |columns| else |stmt.names|;
              if |stmt.values| != n ||
                 (stmt.names != [] &&
                  (exists i :: 0 <= i < n && !stmt.values[i].isNull &&
                               (forall k | k in columns :: k.name != stmt.names[i])))
              then answer == Refused(Invalid)
              else if append.AppendFailed? then answer == Refused(Failed)
              else answer == Inserted(if append.Stored? then append.time else 0)
  {
    hide Encode, ApplyAll, ApplyOp, Knows, SchemaOf, SqlRows.EncodeRow, RowOf, LoadStep;
    var d := AfterLoading(db, ops, load);
    if stmt.table in d.meta.schemas {
      var schema := d.meta.schemas[stmt.table];
      var names := if stmt.names == [] then NamesOf(schema) else stmt.names;
      if |names| == |stmt.values| {
        var row := RowOf(names, stmt.values, |names|);
        forall c ensures c in row <==> exists i :: 0 <= i < |names| && names[i] == c && !stmt.values[i].isNull {
          OnlyValuesAreKept(names, stmt.values, |names|, c);
        }
        UndeclaredExactly(schema, names, stmt.values, row);
        InsertAgain(db, d, load, stmt.table, row, append);
      }
    }
  }

  /** The schemas are loaded only once. */
  lemma InsertAgain(db: Db, d: Db, load: Load, table: string, row: map<string, string>, append: Append)
    requires LoadStep(db, load) == Some(d) && d.loaded
    ensures LoadStep(d, load) == Some(d)
  {
  }

  lemma UndeclaredExactly(schema: Schema, names: seq<string>, values: seq<Literal>, row: map<string, string>)
    requires |names| == |values|
    requires forall c :: c in row <==> exists i :: 0 <= i < |names| && names[i] == c && !values[i].isNull
    ensures row.Keys <= Declared(schema) <==>
            forall i | 0 <= i < |names| && !values[i].isNull :: exists k :: k in schema.columns && k.name == names[i]
    ensures names == NamesOf(schema) ==> row.Keys <= Declared(schema)
  {
    if forall i | 0 <= i < |names| && !values[i].isNull :: exists k :: k in schema.columns && k.name == names[i] {
      forall c | c in row ensures c in Declared(schema) {
        var i :| 0 <= i < |names| && names[i] == c && !values[i].isNull;
      }
    }
    if row.Keys <= Declared(schema) {
      forall i | 0 <= i < |names| && !values[i].isNull ensures exists k :: k in schema.columns && k.name == names[i] {
        assert names[i] in row;
      }
    }
    if names == NamesOf(schema) {
      forall i | 0 <= i < |names| ensures names[i] in Declared(schema) { assert schema.columns[i] in schema.columns; }
    }
  }

  /** Executing a CREATE or a DROP answers nothing exactly when the table is made or goes; an invalid CREATE is
      told apart from a refused one. */
  lemma SchemaStatementAnswers(db: Db, ops: seq<MetaOp>, stmt: Statement, load: Load, append: Append,
                               replay: Option<seq<Stamped<string>>>)
    requires Knows(db, ops, load) && (stmt.CreateTable? || stmt.DropTable?)
    ensures var (d, answer) := Execution(db, stmt, load, append, replay);
            var op := if stmt.CreateTable? then Create(stmt.table, stmt.columns) else Drop(stmt.table);
            var invalid := stmt.CreateTable? &&
                           (stmt.table == "" || IsReserved(stmt.table) || !ColumnsOk(stmt.columns));
            answer == (if invalid then Refused(Invalid)
                       else if Exists(ops, stmt.table) == stmt.CreateTable? || append.AppendFailed? then Refused(Failed)
                       else Nothing) &&
            (answer == Nothing ==> d.meta == ApplyAll(ops + [op]) && d.metaLog == Logged(db, op, append)) &&
            (answer != Nothing ==> d.metaLog == db.metaLog) && d.stories == db.stories
  {
    hide Encode, ApplyAll, ApplyOp, LoadStep, Knows, SchemaOf, IsReserved, ColumnsOk;
    var d := AfterLoading(db, ops, load);
    ApplyLast(ops, if stmt.CreateTable? then Create(stmt.table, stmt.columns) else Drop(stmt.table));
  }
}
