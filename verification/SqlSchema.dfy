/** ChronoSQL's schema log: CREATE and DROP as JSON events, and the state they replay to. */
module SqlSchema {
  import opened Text
  import opened Json
  import opened SqlParser

  datatype MetaOp = Create(table: string, columns: seq<Column>) | Drop(table: string)

  datatype Schema = Schema(table: string, columns: seq<Column>)

  /* ---- the JSON of an operation ---- */

  /** What a C string keeps of s: everything before the first NUL. */
  function CStr(s: string): string
  {
    if s == "" || s[0] == 0 as char then "" else [s[0]] + CStr(s[1..])
  }

  predicate NulFree(s: string) { 0 as char !in s }

  function ColumnJson(c: Column): Json
  {
    JObject([Field("name", JString(CStr(c.name))), Field("type", JString(ColumnTypeToString(c.kind)))])
  }

  function ColumnsJson(cs: seq<Column>): (r: seq<Json>)
    ensures |r| == |cs| && forall i | 0 <= i < |cs| :: r[i] == ColumnJson(cs[i])
  {
    seq(|cs|, i requires 0 <= i < |cs| => ColumnJson(cs[i]))
  }

  function OpJson(op: MetaOp): Json
  {
    match op
    case Create(table, columns) =>
      JObject([Field("op", JString("create_table")), Field("name", JString(CStr(table))),
               Field("columns", JArray(ColumnsJson(columns)))])
    case Drop(table) => JObject([Field("op", JString("drop_table")), Field("name", JString(CStr(table)))])
  }

  function Encode(op: MetaOp): string { Render(OpJson(op), true) }

  /** json-c's default text of a value, with a blank inside every bracket and behind every comma and
      colon. */
  function Spaced(v: Json): string
    decreases v, 1
  {
    match v
    case JArray(items) => "[" + SpacedItems(items) + " ]"
    case JObject(fields) => "{" + SpacedFields(fields) + " }"
    case _ => Render(v, true)
  }

  function SpacedItems(items: seq<Json>): string
    decreases items, 0
  {
    if items == [] then ""
    else " " + Spaced(items[0]) + (if |items| == 1 then "" else "," + SpacedItems(items[1..]))
  }

  function SpacedFields(fields: seq<Field>): string
    decreases fields, 0
  {
    if fields == [] then ""
    else
      " " + RenderString(fields[0].key, true) + ": " + Spaced(fields[0].value)
      + (if |fields| == 1 then "" else "," + SpacedFields(fields[1..]))
  }

  /** `json_object_get_string`, taken as a C string. */
  function TextOf(v: Json): string { if v.JString? then CStr(v.text) else Spaced(v) }

  function StringField(fields: seq<Field>, key: string): Option<string>
  {
    match Lookup(fields, key)
    case Some(v) => Some(TextOf(v))
    case None => None
  }

  /** A column without a name is skipped; a type that is missing or unknown reads as STRING. */
  function DecodeColumn(j: Json): Option<Column>
  {
    if !j.JObject? then None
    else
      match StringField(j.fields, "name")
      case None => None
      case Some(name) =>
        var kind := match StringField(j.fields, "type")
                    case Some(t) => (match ColumnTypeFromString(t) case Some(k) => k case None => STRING)
                    case None => STRING;
        Some(Column(name, kind))
  }

  function DecodeColumns(items: seq<Json>): seq<Column>
  {
    if items == [] then []
    else
      var rest := DecodeColumns(items[1..]);
      match DecodeColumn(items[0]) case Some(c) => [c] + rest case None => rest
  }

  function DecodeFields(f: seq<Field>): Option<MetaOp>
  {
    match (StringField(f, "op"), StringField(f, "name"))
    case (Some(op), Some(table)) =>
      if op == "create_table" then
        (match Lookup(f, "columns")
         case Some(JArray(items)) => Some(Create(table, DecodeColumns(items)))
         case _ => None)
      else if op == "drop_table" then Some(Drop(table))
      else None
    case _ => None
  }

  /** `MetadataState::apply`'s reading of a payload; None for one it skips. */
  function Decode(payload: string): Option<MetaOp>
  {
    match ParseValue(payload)
    case Got(JObject(fields), _) => DecodeFields(fields)
    case _ => None
  }

  lemma {:induction false} CStrOfNulFree(s: string)
    requires NulFree(s)
    ensures CStr(s) == s
  {
    if s != "" {
      assert s[0] in s;
      assert s == [s[0]] + s[1..];
      CStrOfNulFree(s[1..]);
    }
  }

  lemma {:induction false} CStrNulFree(s: string)
    ensures NulFree(CStr(s)) && (CStr(s) == s <==> NulFree(s))
  {
    if NulFree(s) {
      CStrOfNulFree(s);
    } else if s[0] != 0 as char {
      CStrNulFree(s[1..]);
      assert s == [s[0]] + s[1..];
    }
  }

  lemma TextOfCStr(s: string)
    ensures TextOf(JString(CStr(s))) == CStr(s)
  {
    CStrNulFree(s);
    CStrOfNulFree(CStr(s));
  }

  lemma TextOfWord(s: string)
    requires NulFree(s)
    ensures TextOf(JString(s)) == s
  {
    CStrOfNulFree(s);
  }

  lemma WordsAreNulFree(t: ColumnType)
    ensures NulFree("create_table") && NulFree("drop_table") && NulFree(ColumnTypeToString(t))
  {
  }

  lemma ColumnRoundTrip(c: Column)
    ensures DecodeColumn(ColumnJson(c)) == Some(Column(CStr(c.name), c.kind))
  {
    hide Lookup, CStr, ColumnTypeToString, ColumnTypeFromString, TextOf, NulFree;
    var f := ColumnJson(c).fields;
    TextOfCStr(c.name);
    WordsAreNulFree(c.kind);
    TextOfWord(ColumnTypeToString(c.kind));
    LookupPresent(f, 0, "name");
    LookupPresent(f, 1, "type");
    assert ColumnTypeFromString(ColumnTypeToString(c.kind)) == Some(c.kind) by { TypeRoundTrip(c.kind); }
  }

  predicate NulFreeOp(op: MetaOp)
  {
    NulFree(op.table) && (op.Create? ==> forall i | 0 <= i < |op.columns| :: NulFree(op.columns[i].name))
  }

  lemma {:induction false} ColumnsRoundTrip(cs: seq<Column>)
    requires forall i | 0 <= i < |cs| :: NulFree(cs[i].name)
    ensures DecodeColumns(ColumnsJson(cs)) == cs
  {
    hide DecodeColumn, ColumnJson, CStr;
    if cs != [] {
      ColumnRoundTrip(cs[0]);
      CStrOfNulFree(cs[0].name);
      assert ColumnsJson(cs)[1..] == ColumnsJson(cs[1..]);
      ColumnsRoundTrip(cs[1..]);
      assert cs == [cs[0]] + cs[1..];
    }
  }

  lemma DropFieldsRoundTrip(op: MetaOp)
    requires op.Drop? && NulFreeOp(op)
    ensures DecodeFields(OpJson(op).fields) == Some(op)
  {
    hide Lookup, CStr, TextOf, NulFree;
    CStrOfNulFree(op.table);
    TextOfCStr(op.table);
    WordsAreNulFree(INT);
    TextOfWord("drop_table");
    var f := OpJson(op).fields;
    LookupPresent(f, 0, "op");
    LookupPresent(f, 1, "name");
    assert "create_table" != "drop_table";
  }

  lemma CreateFieldsRoundTrip(op: MetaOp)
    requires op.Create? && NulFreeOp(op)
    ensures DecodeFields(OpJson(op).fields) == Some(op)
  {
    hide Lookup, CStr, DecodeColumns, ColumnsJson, TextOf, NulFree;
    CStrOfNulFree(op.table);
    TextOfCStr(op.table);
    WordsAreNulFree(INT);
    TextOfWord("create_table");
    ColumnsRoundTrip(op.columns);
    var f := OpJson(op).fields;
    LookupPresent(f, 0, "op");
    LookupPresent(f, 1, "name");
    LookupPresent(f, 2, "columns");
  }

  /** An operation over NUL-free names reads back as itself. */
  lemma DecodeUndoesEncode(op: MetaOp)
    requires NulFreeOp(op)
    ensures Decode(Encode(op)) == Some(op)
  {
    hide ParseValue, Render, DecodeFields, NulFreeOp;
    assert Encode(op) + "" == Encode(op);
    ParseUndoesRender(OpJson(op), true, "");
    if op.Create? { CreateFieldsRoundTrip(op); } else { DropFieldsRoundTrip(op); }
  }

  /* ---- the state ---- */

  datatype Meta = Meta(order: seq<string>, schemas: map<string, Schema>)

  const NO_TABLES := Meta([], map[])

  function RecordCreate(m: Meta, table: string, columns: seq<Column>): Meta
  {
    if table in m.schemas then m
    else Meta(if table in m.order then m.order else m.order + [table],
              m.schemas[table := Schema(table, columns)])
  }

  function RecordDrop(m: Meta, table: string): Meta { m.(schemas := m.schemas - {table}) }

  function ApplyOp(m: Meta, op: MetaOp): Meta
  {
    match op
    case Create(table, columns) => RecordCreate(m, table, columns)
    case Drop(table) => RecordDrop(m, table)
  }

  function ApplyPayload(m: Meta, payload: string): Meta
  {
    match Decode(payload) case Some(op) => ApplyOp(m, op) case None => m
  }

  /** A fresh state folded over payloads in order. */
  function Replay(payloads: seq<string>): Meta
  {
    if payloads == [] then NO_TABLES
    else ApplyPayload(Replay(payloads[..|payloads| - 1]), payloads[|payloads| - 1])
  }

  /** The live names in the order they were first created. */
  function LiveOf(order: seq<string>, schemas: map<string, Schema>): seq<string>
  {
    if order == [] then []
    else
      var rest := LiveOf(order[..|order| - 1], schemas);
      if order[|order| - 1] in schemas then rest + [order[|order| - 1]] else rest
  }

  class MetadataState {
    var order: seq<string>
    var schemas: map<string, Schema>

    constructor ()
      ensures Now() == NO_TABLES
    {
      order, schemas := [], map[];
    }

    ghost function Now(): Meta
      reads this
    {
      Meta(order, schemas)
    }

    method Apply(payload: string)
      modifies this
      ensures Now() == ApplyPayload(old(Now()), payload)
    {
      hide Decode;
      match Decode(payload) {
        case None =>
        case Some(Create(table, columns)) => DoCreate(table, columns);
        case Some(Drop(table)) => DoDrop(table);
      }
    }

    method DoCreate(table: string, columns: seq<Column>)
      modifies this
      ensures Now() == RecordCreate(old(Now()), table, columns)
    {
      if table in schemas { return; }
      schemas := schemas[table := Schema(table, columns)];
      if table !in order {
        order := order + [table];
      }
    }

    method DoDrop(table: string)
      modifies this
      ensures Now() == RecordDrop(old(Now()), table)
    {
      schemas := schemas - {table};
    }

    method ListTables() returns (out: seq<string>)
      ensures out == LiveOf(order, schemas)
    {
      out := [];
      assert order[..0] == [];
      for i := 0 to |order|
        invariant out == LiveOf(order[..i], schemas)
      {
        assert order[..i + 1][..i] == order[..i];
        if order[i] in schemas {
          out := out + [order[i]];
        }
      }
      assert order[..|order|] == order;
    }
  }

  /* ---- what the state is, table by table ---- */

  ghost predicate Distinct(s: seq<string>)
  {
    forall i, j | 0 <= i < j < |s| :: s[i] != s[j]
  }

  /** Names in the order of their first CREATE, dropped or not. */
  function FirstCreated(ops: seq<MetaOp>): seq<string>
  {
    if ops == [] then []
    else
      var before, last := FirstCreated(ops[..|ops| - 1]), ops[|ops| - 1];
      if last.Create? && last.table !in before then before + [last.table] else before
  }

  /** One table's schema, looking only at that table: the first CREATE since its last DROP. */
  function SchemaOf(ops: seq<MetaOp>, table: string): Option<Schema>
  {
    if ops == [] then None
    else
      var before, last := SchemaOf(ops[..|ops| - 1], table), ops[|ops| - 1];
      if last.table != table then before
      else if last.Drop? then None
      else if before.Some? then before
      else Some(Schema(table, last.columns))
  }

  function ApplyAll(ops: seq<MetaOp>): Meta
  {
    if ops == [] then NO_TABLES else ApplyOp(ApplyAll(ops[..|ops| - 1]), ops[|ops| - 1])
  }

  /** The state is what each table's own history says, and its order that of first creation. */
  lemma {:induction false} StateByTable(ops: seq<MetaOp>)
    ensures var m := ApplyAll(ops);
            m.order == FirstCreated(ops) && Distinct(m.order) &&
            (forall t | t in m.schemas :: t in m.order) &&
            (forall t :: SchemaOf(ops, t) == if t in m.schemas then Some(m.schemas[t]) else None)
  {
    if ops != [] {
      StateByTable(ops[..|ops| - 1]);
    }
  }

  lemma {:induction false} LiveOfFacts(order: seq<string>, schemas: map<string, Schema>)
    requires Distinct(order)
    ensures var live := LiveOf(order, schemas);
            Distinct(live) && (forall t :: t in live <==> t in order && t in schemas) && |live| <= |order|
  {
    if order != [] {
      LiveOfFacts(order[..|order| - 1], schemas);
      assert order == order[..|order| - 1] + [order[|order| - 1]];
      var live := LiveOf(order[..|order| - 1], schemas);
      assert forall i | 0 <= i < |live| :: live[i] in live;
    }
  }

  /** Position of a live table follows its position among first creations. */
  lemma {:induction false} LiveKeepsOrder(order: seq<string>, schemas: map<string, Schema>, i: nat, j: nat)
    requires Distinct(order) && i < j < |LiveOf(order, schemas)|
    ensures exists a, b :: 0 <= a < b < |order| &&
              order[a] == LiveOf(order, schemas)[i] && order[b] == LiveOf(order, schemas)[j]
  {
    var n := |order| - 1;
    var rest := LiveOf(order[..n], schemas);
    LiveOfFacts(order[..n], schemas);
    if j < |rest| {
      LiveKeepsOrder(order[..n], schemas, i, j);
      var a, b :| 0 <= a < b < n && order[..n][a] == rest[i] && order[..n][b] == rest[j];
      assert order[a] == rest[i] && order[b] == rest[j];
    } else {
      assert rest[i] in rest;
      var a :| 0 <= a < n && order[..n][a] == rest[i];
      assert order[a] == rest[i] && order[n] == LiveOf(order, schemas)[j];
    }
  }

  /** Names of `some` stand in `all` in the same order. */
  ghost predicate InOrderOf(some: seq<string>, all: seq<string>)
  {
    forall i, j | 0 <= i < j < |some| :: Precedes(some[i], some[j], all)
  }

  ghost predicate Precedes(x: string, y: string, all: seq<string>)
  {
    exists a, b :: 0 <= a < b < |all| && all[a] == x && all[b] == y
  }

  /** listTables: no duplicates, exactly the tables with a live schema, in order of first creation. */
  lemma ListedTables(ops: seq<MetaOp>)
    ensures var m := ApplyAll(ops);
            var live := LiveOf(m.order, m.schemas);
            Distinct(live) && (forall t :: t in live <==> SchemaOf(ops, t).Some?) && InOrderOf(live, FirstCreated(ops))
  {
    StateByTable(ops);
    var m := ApplyAll(ops);
    LiveOfFacts(m.order, m.schemas);
    var live := LiveOf(m.order, m.schemas);
    forall i, j | 0 <= i < j < |live| ensures Precedes(live[i], live[j], m.order) {
      LiveKeepsOrder(m.order, m.schemas, i, j);
    }
  }

  function EncodeAll(ops: seq<MetaOp>): (r: seq<string>)
    ensures |r| == |ops| && forall i | 0 <= i < |ops| :: r[i] == Encode(ops[i])
  {
    seq(|ops|, i requires 0 <= i < |ops| => Encode(ops[i]))
  }

  /** Replaying encoded operations is applying them. */
  lemma {:induction false} ReplayOfEncoded(ops: seq<MetaOp>)
    requires forall i | 0 <= i < |ops| :: NulFreeOp(ops[i])
    ensures Replay(EncodeAll(ops)) == ApplyAll(ops)
  {
    hide Decode, Encode, NulFreeOp;
    if ops != [] {
      var n := |ops| - 1;
      assert EncodeAll(ops)[..n] == EncodeAll(ops[..n]);
      ReplayOfEncoded(ops[..n]);
      DecodeUndoesEncode(ops[n]);
    }
  }
}
