/** ChronoSQL's mapper: tables as stories, the schema as a replayed log. */
module SqlMapper {
  import opened Text
  import opened TimeSort
  import opened SqlParser
  import opened SqlSchema
  import SqlRows

  const METADATA_STORY := "__chronosql_metadata"

  /** `metaLog` is the metadata story, `stories` the tables' stories. `meta` is what the process
      believes, once it has loaded it. */
  datatype Db = Db(meta: Meta, loaded: bool, metaLog: seq<Stamped<string>>, stories: map<string, seq<Stamped<string>>>)

  /** How the one replay of the metadata story ends: with its events, in a timeout that is taken for an
      empty story, or in an exception. The methods are given the events as they came in, the functions
      as the sort arranged them. */
  datatype Load = Replayed(events: seq<Stamped<string>>) | TimedOut | LoadFailed

  /** How an append ends: stored with a timestamp, dropped without a word, or in an exception. */
  datatype Append = Stored(time: nat) | Dropped | AppendFailed

  datatype Outcome = Done | Invalid | Failed

  predicate IsReserved(s: string) { |s| >= 2 && s[0] == '_' && s[1] == '_' }

  ghost predicate ColumnsOk(cs: seq<Column>)
  {
    cs != [] && (forall i | 0 <= i < |cs| :: cs[i].name != "" && !IsReserved(cs[i].name)) &&
    forall i, j | 0 <= i < j < |cs| :: cs[i].name != cs[j].name
  }

  function Values<T>(s: seq<Stamped<T>>): (r: seq<T>)
    ensures |r| == |s| && forall i | 0 <= i < |s| :: r[i] == s[i].value
  {
    seq(|s|, i requires 0 <= i < |s| => s[i].value)
  }

  /** The same load with its events sorted, one way or another. */
  ghost predicate Sorts(used: Load, load: Load)
  {
    if load.Replayed? then used.Replayed? && Arranges(used.events, load.events) else used == load
  }

  ghost function Sorting(load: Load): (used: Load)
    ensures Sorts(used, load)
  {
    if load.Replayed? then
      SortFacts(load.events);
      Replayed(SortByTime(load.events))
    else load
  }

  /* ---- the operations ---- */

  /** `ensureMetadataLoaded`: None when the replay throws (and may be tried again). */
  function LoadStep(db: Db, load: Load): Option<Db>
  {
    if db.loaded then Some(db)
    else
      match load
      case Replayed(events) => Some(db.(loaded := true, meta := Replay(Values(events))))
      case TimedOut => Some(db.(loaded := true, meta := NO_TABLES))
      case LoadFailed => None
  }

  /** Appends one schema operation and takes it into memory, whether or not it was stored. */
  function RecordStep(db: Db, op: MetaOp, append: Append): (Db, Outcome)
  {
    match append
    case AppendFailed => (db, Failed)
    case Dropped => (db.(meta := ApplyOp(db.meta, op)), Done)
    case Stored(t) => (db.(meta := ApplyOp(db.meta, op), metaLog := db.metaLog + [Stamped(t, Encode(op))]), Done)
  }

  ghost function CreateStep(db: Db, name: string, columns: seq<Column>, load: Load, append: Append): (Db, Outcome)
  {
    if name == "" || IsReserved(name) || !ColumnsOk(columns) then (db, Invalid)
    else
      match LoadStep(db, load)
      case None => (db, Failed)
      case Some(d) => if name in d.meta.schemas then (d, Failed) else RecordStep(d, Create(name, columns), append)
  }

  function DropStep(db: Db, name: string, load: Load, append: Append): (Db, Outcome)
  {
    match LoadStep(db, load)
    case None => (db, Failed)
    case Some(d) => if name !in d.meta.schemas then (d, Failed) else RecordStep(d, Drop(name), append)
  }

  function Declared(s: Schema): set<string> { set c | c in s.columns :: c.name }

  function StoryOf(db: Db, table: string): seq<Stamped<string>>
  {
    if table in db.stories then db.stories[table] else []
  }

  function InsertStep(db: Db, table: string, row: map<string, string>, load: Load, append: Append): (Db, Outcome)
  {
    match LoadStep(db, load)
    case None => (db, Failed)
    case Some(d) =>
      if table !in d.meta.schemas then (d, Failed)
      else if !(row.Keys <= Declared(d.meta.schemas[table])) then (d, Invalid)
      else
        match append
        case AppendFailed => (d, Failed)
        case Dropped => (d, Done)
        case Stored(t) =>
          (d.(stories := d.stories[table := StoryOf(d, table) + [Stamped(t, SqlRows.EncodeRow(row))]]), Done)
  }

  /* ---- the class ---- */

  class Mapper {
    const metadata: MetadataState
    var loaded: bool
    var metaLog: seq<Stamped<string>>
    var stories: map<string, seq<Stamped<string>>>

    constructor (metaLog: seq<Stamped<string>>, stories: map<string, seq<Stamped<string>>>)
      ensures Now() == Db(NO_TABLES, false, metaLog, stories) && fresh(metadata)
    {
      metadata := new MetadataState();
      loaded := false;
      this.metaLog, this.stories := metaLog, stories;
    }

    ghost function Now(): Db
      reads this, metadata
    {
      Db(metadata.Now(), loaded, metaLog, stories)
    }

    ghost predicate Valid()
      reads this, metadata
    {
      !loaded ==> metadata.Now() == NO_TABLES
    }

    method EnsureLoaded(load: Load) returns (ok: bool, ghost used: Load)
      requires Valid()
      modifies this, metadata
      ensures Valid() && Sorts(used, load)
      ensures match LoadStep(old(Now()), used)
              case None => !ok && Now() == old(Now())
              case Some(d) => ok && Now() == d && loaded
    {
      used := Sorting(load);
      if loaded { return true, used; }
      if load.LoadFailed? { return false, used; }
      if load.TimedOut? {
        loaded := true;
        return true, used;
      }
      var events := StdSort(load.events);
      used := Replayed(events);
      ghost var all := Values(events);
      assert all[..0] == [];
      for i := 0 to |events|
        invariant metadata.Now() == Replay(all[..i])
        invariant !loaded && metaLog == old(metaLog) && stories == old(stories)
      {
        assert all[..i + 1][..i] == all[..i];
        metadata.Apply(events[i].value);
      }
      assert all[..|events|] == all;
      loaded := true;
      return true, used;
    }

    method ValidColumns(columns: seq<Column>) returns (ok: bool)
      ensures ok <==> ColumnsOk(columns)
    {
      if columns == [] { return false; }
      var seen: set<string> := {};
      for i := 0 to |columns|
        invariant forall j | 0 <= j < i :: columns[j].name != "" && !IsReserved(columns[j].name)
        invariant forall j, k | 0 <= j < k < i :: columns[j].name != columns[k].name
        invariant seen == set j | 0 <= j < i :: columns[j].name
      {
        if columns[i].name == "" || IsReserved(columns[i].name) { return false; }
        if columns[i].name in seen { return false; }
        seen := seen + {columns[i].name};
      }
      return true;
    }

    method CreateTable(name: string, columns: seq<Column>, load: Load, append: Append)
      returns (r: Outcome, ghost used: Load)
      requires Valid()
      modifies this, metadata
      ensures Valid() && Sorts(used, load)
      ensures (Now(), r) == CreateStep(old(Now()), name, columns, used, append)
    {
      hide ColumnsOk, Encode, SortByTime, Replay;
      used := Sorting(load);
      if name == "" || IsReserved(name) { return Invalid, used; }
      var columnsOk := ValidColumns(columns);
      if !columnsOk { return Invalid, used; }
      var ok: bool;
      ok, used := EnsureLoaded(load);
      if !ok { return Failed, used; }
      if name in metadata.schemas { return Failed, used; }
      if append.AppendFailed? { return Failed, used; }
      if append.Stored? { metaLog := metaLog + [Stamped(append.time, Encode(Create(name, columns)))]; }
      metadata.DoCreate(name, columns);
      return Done, used;
    }

    method DropTable(name: string, load: Load, append: Append) returns (r: Outcome, ghost used: Load)
      requires Valid()
      modifies this, metadata
      ensures Valid() && Sorts(used, load)
      ensures (Now(), r) == DropStep(old(Now()), name, used, append)
    {
      hide Encode, SortByTime, Replay;
      var ok: bool;
      ok, used := EnsureLoaded(load);
      if !ok { return Failed, used; }
      if name !in metadata.schemas { return Failed, used; }
      if append.AppendFailed? { return Failed, used; }
      if append.Stored? { metaLog := metaLog + [Stamped(append.time, Encode(Drop(name)))]; }
      metadata.DoDrop(name);
      return Done, used;
    }

    method Insert(table: string, row: map<string, string>, load: Load, append: Append)
      returns (r: Outcome, ghost used: Load)
      requires Valid()
      modifies this, metadata
      ensures Valid() && Sorts(used, load)
      ensures (Now(), r) == InsertStep(old(Now()), table, row, used, append)
    {
      hide SortByTime, Replay;
      var ok: bool;
      ok, used := EnsureLoaded(load);
      if !ok { return Failed, used; }
      if table !in metadata.schemas { return Failed, used; }
      var schema := metadata.schemas[table];
      var declared := set c | c in schema.columns :: c.name;
      if !(row.Keys <= declared) { return Invalid, used; }
      if append.AppendFailed? { return Failed, used; }
      if append.Stored? {
        var story := if table in stories then stories[table] else [];
        stories := stories[table := story + [Stamped(append.time, SqlRows.EncodeRow(row))]];
      }
      return Done, used;
    }
  }

  /* ---- whole runs ---- */

  datatype Step =
    | CreateTable(name: string, columns: seq<Column>, load: Load, append: Append)
    | DropTable(name: string, load: Load, append: Append)
    | Insert(table: string, row: map<string, string>, load: Load, append: Append)
    | Restart

  ghost function Apply(db: Db, step: Step): Db
  {
    match step
    case CreateTable(name, columns, load, append) => CreateStep(db, name, columns, load, append).0
    case DropTable(name, load, append) => DropStep(db, name, load, append).0
    case Insert(table, row, load, append) => InsertStep(db, table, row, load, append).0
    case Restart => db.(meta := NO_TABLES, loaded := false)
  }

  /** A replay gives the whole story, which is then sorted; it times out at most while the story is
      empty. */
  ghost predicate LoadOk(db: Db, load: Load)
  {
    match load
    case Replayed(events) => Arranges(events, db.metaLog)
    case TimedOut => db.metaLog == []
    case LoadFailed => true
  }

  /** A schema append is stored, later than the ones before, or fails aloud. */
  ghost predicate AppendOk(db: Db, append: Append)
  {
    match append
    case Stored(t) => forall e | e in db.metaLog :: e.time < t
    case Dropped => false
    case AppendFailed => true
  }

  ghost predicate StepOk(db: Db, step: Step)
  {
    match step
    case CreateTable(name, columns, load, append) =>
      LoadOk(db, load) && AppendOk(db, append) && NulFreeOp(Create(name, columns))
    case DropTable(name, load, append) => LoadOk(db, load) && AppendOk(db, append)
    case Insert(_, _, load, _) => LoadOk(db, load)
    case Restart => true
  }

  /** NUL-free names, and for a CREATE names that passed its checks. */
  ghost predicate ProperOp(op: MetaOp)
  {
    NulFreeOp(op) && (op.Create? ==> !IsReserved(op.table) && ColumnsOk(op.columns))
  }

  /** The log is the encoding of `ops`, rising in time, over proper names; memory, once loaded, is
      their effect; and no story is a reserved one. */
  ghost predicate Inv(db: Db, ops: seq<MetaOp>)
  {
    Rising(db.metaLog) && Values(db.metaLog) == EncodeAll(ops) &&
    (forall i | 0 <= i < |ops| :: ProperOp(ops[i])) &&
    db.meta == (if db.loaded then ApplyAll(ops) else NO_TABLES) &&
    (forall t | t in db.stories :: !IsReserved(t))
  }

  lemma LoadKeeps(db: Db, ops: seq<MetaOp>, load: Load)
    requires Inv(db, ops) && LoadOk(db, load) && LoadStep(db, load).Some?
    ensures Inv(LoadStep(db, load).value, ops) && LoadStep(db, load).value.loaded
    ensures LoadStep(db, load).value.metaLog == db.metaLog
  {
    hide NulFreeOp, Encode, Replay, SortByTime;
    if !db.loaded {
      match load {
        case Replayed(events) =>
          SortRestores(events, db.metaLog, db.metaLog);
          ReplayOfEncoded(ops);
        case TimedOut =>
          assert |ops| == |EncodeAll(ops)| == 0;
      }
    }
  }

  /** A table with a schema was created under its name and with proper columns. */
  lemma {:induction false} LiveNamesAreProper(ops: seq<MetaOp>, t: string)
    requires forall i | 0 <= i < |ops| :: ProperOp(ops[i])
    requires t in ApplyAll(ops).schemas
    ensures !IsReserved(t) && NulFree(t)
    ensures var columns := ApplyAll(ops).schemas[t].columns;
            ColumnsOk(columns) && forall i | 0 <= i < |columns| :: NulFree(columns[i].name)
  {
    hide IsReserved, NulFree, ColumnsOk;
    var n := |ops| - 1;
    if t in ApplyAll(ops[..n]).schemas {
      assert forall i | 0 <= i < n :: ops[..n][i] == ops[i];
      LiveNamesAreProper(ops[..n], t);
    } else {
      assert ops[n].Create? && ops[n].table == t && ProperOp(ops[n]);
    }
  }

  lemma RecordKeeps(db: Db, ops: seq<MetaOp>, op: MetaOp, append: Append) returns (ops': seq<MetaOp>)
    requires Inv(db, ops) && db.loaded && AppendOk(db, append)
    requires ProperOp(op)
    ensures Inv(RecordStep(db, op, append).0, ops')
  {
    hide ProperOp, Encode, IsReserved, ApplyOp;
    ops' := ops;
    if append.Stored? {
      ops' := ops + [op];
      assert ops'[..|ops|] == ops;
      var log := db.metaLog + [Stamped(append.time, Encode(op))];
      assert forall i | 0 <= i < |db.metaLog| :: db.metaLog[i] in db.metaLog;
      assert Values(log) == Values(db.metaLog) + [Encode(op)];
      assert EncodeAll(ops') == EncodeAll(ops) + [Encode(op)];
    }
  }

  lemma StepKeeps(db: Db, ops: seq<MetaOp>, step: Step) returns (ops': seq<MetaOp>)
    requires Inv(db, ops) && StepOk(db, step)
    ensures Inv(Apply(db, step), ops')
  {
    hide NulFreeOp, Encode, IsReserved, ApplyOp, SortByTime, Replay, ApplyAll, RecordStep, ColumnsOk, LoadStep;
    ops' := ops;
    match step {
      case Restart =>
      case CreateTable(name, columns, load, append) =>
        if name != "" && !IsReserved(name) && ColumnsOk(columns) && LoadStep(db, load).Some? {
          LoadKeeps(db, ops, load);
          var d := LoadStep(db, load).value;
          if name !in d.meta.schemas { ops' := RecordKeeps(d, ops, Create(name, columns), append); }
        }
      case DropTable(name, load, append) =>
        if LoadStep(db, load).Some? {
          LoadKeeps(db, ops, load);
          var d := LoadStep(db, load).value;
          if name in d.meta.schemas {
            LiveNamesAreProper(ops, name);
            DropIsNulFree(name);
            ops' := RecordKeeps(d, ops, Drop(name), append);
          }
        }
      case Insert(table, row, load, append) =>
        if LoadStep(db, load).Some? {
          LoadKeeps(db, ops, load);
          var d := LoadStep(db, load).value;
          if table in d.meta.schemas { LiveNamesAreProper(ops, table); }
        }
    }
  }

  lemma DropIsNulFree(name: string)
    requires NulFree(name)
    ensures NulFreeOp(Drop(name))
  {
  }

  const EMPTY := Db(NO_TABLES, false, [], map[])

  /** db is reached from an empty deployment by steps of which each is `StepOk`. */
  ghost predicate Reaches(steps: seq<Step>, db: Db)
  {
    if steps == [] then db == EMPTY
    else
      var last := steps[|steps| - 1];
      exists d :: Reaches(steps[..|steps| - 1], d) && StepOk(d, last) && db == Apply(d, last)
  }

  lemma {:induction false} InvReachable(steps: seq<Step>, db: Db) returns (ops: seq<MetaOp>)
    requires Reaches(steps, db)
    ensures Inv(db, ops)
    decreases |steps|
  {
    hide Apply, StepOk;
    if steps == [] {
      ops := [];
    } else {
      hide Inv;
      var last := steps[|steps| - 1];
      var d :| Reaches(steps[..|steps| - 1], d) && StepOk(d, last) && db == Apply(d, last);
      var before := InvReachable(steps[..|steps| - 1], d);
      ops := StepKeeps(d, before, last);
    }
  }

  /** In every run a loaded process believes exactly what a fresh replay of the metadata story, in
      whatever order it comes in and however it is sorted, would tell it; the tables it lists are those
      live in the log, once each and in order of first creation; none is reserved, and no row is in the
      metadata story. */
  lemma MemoryIsReplay(steps: seq<Step>, db: Db, shuffled: seq<Stamped<string>>, arranged: seq<Stamped<string>>)
    returns (ops: seq<MetaOp>)
    requires Reaches(steps, db) && multiset(shuffled) == multiset(db.metaLog) && Arranges(arranged, shuffled)
    ensures Values(db.metaLog) == EncodeAll(ops)
    ensures db.loaded ==> db.meta == Replay(Values(arranged)) == ApplyAll(ops)
    ensures db.loaded ==>
              var live := LiveOf(db.meta.order, db.meta.schemas);
              Distinct(live) && (forall t :: t in live <==> SchemaOf(ops, t).Some?) &&
              InOrderOf(live, FirstCreated(ops)) && (forall t | t in live :: !IsReserved(t))
    ensures METADATA_STORY !in db.stories
  {
    hide NulFreeOp, Encode, Replay, SortByTime, IsReserved, LiveOf, FirstCreated, InOrderOf, Distinct, Reaches;
    ops := InvReachable(steps, db);
    SortRestores(arranged, shuffled, db.metaLog);
    ReplayOfEncoded(ops);
    ListedTables(ops);
    StateByTable(ops);
    forall t | t in ApplyAll(ops).schemas ensures !IsReserved(t) { LiveNamesAreProper(ops, t); }
    MetadataStoryIsReserved();
  }

  lemma MetadataStoryIsReserved()
    ensures IsReserved(METADATA_STORY)
  {
  }

  /** A schema operation that changes memory but was not stored leaves memory and log apart: exactly
      the stored ones keep a loaded, agreeing process in agreement. */
  lemma AgreesExactlyWhenStored(db: Db, ops: seq<MetaOp>, op: MetaOp, append: Append)
    requires Inv(db, ops) && db.loaded && NulFreeOp(op) && ApplyOp(db.meta, op) != db.meta
    requires RecordStep(db, op, append).1 == Done
    ensures var d := RecordStep(db, op, append).0;
            d.meta == Replay(Values(d.metaLog)) <==> append.Stored?
  {
    hide NulFreeOp, Encode, Inv, ApplyOp;
    InvGives(db, ops);
    ReplayOfEncoded(ops);
    if append.Stored? {
      assert (ops + [op])[..|ops|] == ops;
      assert Values(db.metaLog + [Stamped(append.time, Encode(op))]) == EncodeAll(ops + [op]);
      ReplayOfEncoded(ops + [op]);
    }
  }

  /** What CREATE and DROP pass on after their checks does change memory. */
  lemma CheckedOpsAreEffective(meta: Meta, op: MetaOp)
    requires if op.Create? then op.table !in meta.schemas else op.table in meta.schemas
    ensures ApplyOp(meta, op) != meta
  {
    assert op.table in ApplyOp(meta, op).schemas <==> op.Create?;
  }

  lemma InvGives(db: Db, ops: seq<MetaOp>)
    requires Inv(db, ops) && db.loaded
    ensures Values(db.metaLog) == EncodeAll(ops) && db.meta == ApplyAll(ops)
    ensures forall i | 0 <= i < |ops| :: NulFreeOp(ops[i])
  {
    hide NulFreeOp, Encode;
  }

  /** A replay that times out leaves a process in agreement with the log exactly when no table was ever
      created: one that was dropped again has still left its place in the order. */
  lemma TimedOutAgreesExactlyWhen(db: Db, ops: seq<MetaOp>)
    requires Inv(db, ops) && !db.loaded
    ensures var d := LoadStep(db, TimedOut).value;
            d.meta == Replay(Values(d.metaLog)) <==> forall i | 0 <= i < |ops| :: ops[i].Drop?
  {
    hide Replay, ProperOp, Encode, NulFreeOp;
    assert forall i | 0 <= i < |ops| :: NulFreeOp(ops[i]) by { ProperOps(ops); }
    ReplayOfEncoded(ops);
    OnlyDropsAreNothing(ops);
  }

  lemma ProperOps(ops: seq<MetaOp>)
    requires forall i | 0 <= i < |ops| :: ProperOp(ops[i])
    ensures forall i | 0 <= i < |ops| :: NulFreeOp(ops[i])
  {
    hide NulFreeOp, ColumnsOk;
    assert forall i | 0 <= i < |ops| :: ProperOp(ops[i]);
  }

  lemma OnlyDropsAreNothing(ops: seq<MetaOp>)
    ensures ApplyAll(ops) == NO_TABLES <==> forall i | 0 <= i < |ops| :: ops[i].Drop?
  {
    hide ApplyAll, FirstCreated, SchemaOf;
    StateByTable(ops);
    NothingCreated(ops);
    var m := ApplyAll(ops);
    assert m.order == [] ==> m.schemas == map[];
  }

  lemma {:induction false} NothingCreated(ops: seq<MetaOp>)
    ensures FirstCreated(ops) == [] <==> forall i | 0 <= i < |ops| :: ops[i].Drop?
  {
    if ops != [] { NothingCreated(ops[..|ops| - 1]); }
  }
}
