/** Payloads ChronoSQL did not write itself: columns without a type, rows whose values are no strings. */
module SqlForeign {
  import opened Text
  import opened Json
  import opened SqlLexer
  import opened SqlParser
  import opened SqlGrammar
  import opened SqlSchema
  import SqlRows

  /* ---- columns ---- */

  /** A column object with what it has of a name and a type. */
  datatype Written = Written(name: Option<string>, kind: Option<string>)

  function WrittenJson(w: Written): Json
  {
    JObject((if w.name.Some? then [Field("name", JString(w.name.value))] else []) +
            (if w.kind.Some? then [Field("type", JString(w.kind.value))] else []))
  }

  function WrittenJsons(ws: seq<Written>): (r: seq<Json>)
    ensures |r| == |ws| && forall i | 0 <= i < |ws| :: r[i] == WrittenJson(ws[i])
  {
    seq(|ws|, i requires 0 <= i < |ws| => WrittenJson(ws[i]))
  }

  /** The type is the one the word names in any case, and STRING when it names none or is missing. */
  predicate HasType(w: Written, t: ColumnType)
  {
    if w.kind.Some? && exists k :: Lower(w.kind.value) in TypeNames(k) then Lower(w.kind.value) in TypeNames(t)
    else t == STRING
  }

  /** Columns without a name are passed over. */
  ghost predicate Meant(ws: seq<Written>, cs: seq<Column>)
  {
    if ws == [] then cs == []
    else if ws[0].name.None? then Meant(ws[1..], cs)
    else cs != [] && cs[0].name == ws[0].name.value && HasType(ws[0], cs[0].kind) && Meant(ws[1..], cs[1..])
  }

  lemma KeysDiffer()
    ensures "name" != "type" && "op" != "name" && "name" != "columns" && "op" != "columns"
    ensures "create_table" != "drop_table"
  {
    assert "name"[0] != "type"[0];
  }

  lemma ColumnMeant(w: Written)
    requires w.name.Some? ==> NulFree(w.name.value)
    requires w.kind.Some? ==> NulFree(w.kind.value)
    ensures match DecodeColumn(WrittenJson(w))
            case None => w.name.None?
            case Some(c) => w.name == Some(c.name) && HasType(w, c.kind)
  {
    hide Lookup, CStr, NulFree, ColumnTypeFromString, Lower, TypeNames, Spaced;
    KeysDiffer();
    var f := WrittenJson(w).fields;
    if w.name.Some? {
      LookupPresent(f, 0, "name");
      CStrOfNulFree(w.name.value);
    } else {
      LookupAbsent(f, "name");
    }
    if w.kind.Some? {
      LookupPresent(f, |f| - 1, "type");
      CStrOfNulFree(w.kind.value);
      forall t ensures ColumnTypeFromString(w.kind.value) == Some(t) <==> Lower(w.kind.value) in TypeNames(t) {
        TypeExactly(w.kind.value, t);
      }
    } else {
      LookupAbsent(f, "type");
    }
  }

  lemma {:induction false} ColumnsMeant(ws: seq<Written>)
    requires forall i | 0 <= i < |ws| :: (ws[i].name.Some? ==> NulFree(ws[i].name.value)) &&
                                         (ws[i].kind.Some? ==> NulFree(ws[i].kind.value))
    ensures Meant(ws, DecodeColumns(WrittenJsons(ws)))
  {
    hide DecodeColumn, NulFree, HasType, WrittenJson;
    if ws != [] {
      ColumnMeant(ws[0]);
      assert WrittenJsons(ws)[1..] == WrittenJsons(ws[1..]);
      ColumnsMeant(ws[1..]);
    }
  }

  function CreateFields(table: string, ws: seq<Written>): seq<Field>
  {
    [Field("op", JString("create_table")), Field("name", JString(table)), Field("columns", JArray(WrittenJsons(ws)))]
  }

  lemma FieldsMeant(table: string, ws: seq<Written>)
    requires NulFree(table)
    ensures DecodeFields(CreateFields(table, ws)) == Some(Create(table, DecodeColumns(WrittenJsons(ws))))
  {
    hide Lookup, CStr, NulFree, DecodeColumns, TextOf;
    KeysDiffer();
    var f := CreateFields(table, ws);
    LookupPresent(f, 0, "op");
    LookupPresent(f, 1, "name");
    LookupPresent(f, 2, "columns");
    WordsAreNulFree(INT);
    TextOfWord("create_table");
    TextOfWord(table);
  }

  /** A CREATE payload replays to the table with the columns it means. */
  lemma ForeignCreateReads(table: string, ws: seq<Written>)
    requires NulFree(table)
    requires forall i | 0 <= i < |ws| :: (ws[i].name.Some? ==> NulFree(ws[i].name.value)) &&
                                         (ws[i].kind.Some? ==> NulFree(ws[i].kind.value))
    ensures var op := Decode(Render(JObject(CreateFields(table, ws)), true));
            op.Some? && op.value.Create? && op.value.table == table && Meant(ws, op.value.columns)
  {
    hide ParseValue, Render, DecodeFields, NulFree, Meant, DecodeColumns, CreateFields;
    var v := JObject(CreateFields(table, ws));
    assert Render(v, true) + "" == Render(v, true);
    ParseUndoesRender(v, true, "");
    FieldsMeant(table, ws);
    ColumnsMeant(ws);
  }

  /* ---- json-c's spaced text ---- */

  /** The text without the blanks outside its strings. */
  function Packed(s: string, inside: bool, escaped: bool): string
  {
    if s == "" then ""
    else if inside then
      [s[0]] + Packed(s[1..], escaped || s[0] != '"', !escaped && s[0] == '\\')
    else if s[0] == ' ' then Packed(s[1..], false, false)
    else [s[0]] + Packed(s[1..], s[0] == '"', false)
  }

  lemma PackedPlain(c: char, rest: string)
    ensures Packed([c] + rest, false, false) ==
            if c == ' ' then Packed(rest, false, false) else [c] + Packed(rest, c == '"', false)
    ensures forall e :: Packed([c] + rest, true, e) == [c] + Packed(rest, e || c != '"', !e && c == '\\')
  {
    assert ([c] + rest)[1..] == rest;
  }

  predicate Unmarked(s: string) { forall i | 0 <= i < |s| :: s[i] != '"' && s[i] != '\\' && s[i] != ' ' }

  lemma {:induction false} UnmarkedStays(s: string, rest: string, inside: bool)
    requires Unmarked(s)
    ensures Packed(s + rest, inside, false) == s + Packed(rest, inside, false)
  {
    hide Packed;
    if s == "" {
      assert s + rest == rest;
    } else {
      UnmarkedStays(s[1..], rest, inside);
      PackedPlain(s[0], s[1..] + rest);
      assert s + rest == [s[0]] + (s[1..] + rest);
      assert s + Packed(rest, inside, false) == [s[0]] + (s[1..] + Packed(rest, inside, false));
    }
  }

  lemma EscapeShape(c: char)
    ensures var e := EscapeChar(c, true);
            if |e| == 1 then e == [c] && c != '"' && c != '\\'
            else |e| > 1 && e[0] == '\\' && Unmarked(e[2..])
  {
  }

  lemma EscapedStays(c: char, rest: string)
    ensures Packed(EscapeChar(c, true) + rest, true, false) == EscapeChar(c, true) + Packed(rest, true, false)
  {
    hide Packed, EscapeChar;
    var e := EscapeChar(c, true);
    EscapeShape(c);
    if |e| == 1 {
      PackedPlain(c, rest);
    } else {
      var tail := e[2..];
      assert e + rest == [e[0]] + ([e[1]] + (tail + rest));
      PackedPlain(e[0], [e[1]] + (tail + rest));
      PackedPlain(e[1], tail + rest);
      UnmarkedStays(tail, rest, true);
      assert e + Packed(rest, true, false) == [e[0]] + ([e[1]] + (tail + Packed(rest, true, false)));
    }
  }

  lemma {:induction false} BodyStays(text: string, rest: string)
    ensures Packed(Escape(text, true) + rest, true, false) == Escape(text, true) + Packed(rest, true, false)
  {
    hide Packed, EscapeChar;
    if text == "" {
      assert "" + rest == rest;
    } else {
      var e, more := EscapeChar(text[0], true), Escape(text[1..], true);
      BodyStays(text[1..], rest);
      EscapedStays(text[0], more + rest);
      JoinAssociates(e, more, rest);
      JoinAssociates(e, more, Packed(rest, true, false));
    }
  }

  lemma StringStays(text: string, rest: string)
    ensures Packed(RenderString(text, true) + rest, false, false) ==
            RenderString(text, true) + Packed(rest, false, false)
  {
    hide Packed, Escape;
    var body := Escape(text, true);
    assert RenderString(text, true) + rest == ['"'] + (body + (['"'] + rest));
    PackedPlain('"', body + (['"'] + rest));
    BodyStays(text, ['"'] + rest);
    PackedPlain('"', rest);
    var packed := Packed(rest, false, false);
    assert RenderString(text, true) + packed == ['"'] + (body + (['"'] + packed));
  }

  lemma ScalarStays(v: Json, rest: string)
    requires v.JInt? || v.JBool?
    ensures Packed(Spaced(v) + rest, false, false) == Render(v, true) + Packed(rest, false, false)
  {
    hide Packed, Text.Decimal;
    UnmarkedStays(Render(v, true), rest, false);
  }

  lemma BracketsStay(open: char, body: string, close: char, packed: string, rest: string)
    requires open !in {' ', '"'} && close !in {' ', '"'}
    requires var tail := [' '] + ([close] + rest);
             Packed(body + tail, false, false) == packed + Packed(tail, false, false)
    ensures Packed([open] + body + [' ', close] + rest, false, false) ==
            [open] + packed + [close] + Packed(rest, false, false)
  {
    hide Packed;
    var tail := [' '] + ([close] + rest);
    assert [open] + body + [' ', close] + rest == [open] + (body + tail);
    PackedPlain(open, body + tail);
    PackedPlain(' ', [close] + rest);
    PackedPlain(close, rest);
  }

  /** json-c's two ways of writing a value differ in blanks outside strings only. */
  lemma {:induction false} SpacedIsRenderedWithBlanks(v: Json, rest: string)
    ensures Packed(Spaced(v) + rest, false, false) == Render(v, true) + Packed(rest, false, false)
    decreases v, 1
  {
    hide Packed, RenderString, SpacedItems, SpacedFields, RenderItems, RenderFields;
    match v {
      case JString(text) => StringStays(text, rest);
      case JArray(items) =>
        ItemsStay(items, [' '] + ([']'] + rest));
        BracketsStay('[', SpacedItems(items), ']', RenderItems(items, true), rest);
      case JObject(fields) =>
        FieldsStay(fields, [' '] + (['}'] + rest));
        BracketsStay('{', SpacedFields(fields), '}', RenderFields(fields, true), rest);
      case _ => ScalarStays(v, rest);
    }
  }

  lemma {:induction false} ItemsStay(items: seq<Json>, rest: string)
    ensures Packed(SpacedItems(items) + rest, false, false) == RenderItems(items, true) + Packed(rest, false, false)
    decreases items, 0
  {
    hide Packed, Render, Spaced;
    if items == [] {
      assert "" + rest == rest;
      assert "" + Packed(rest, false, false) == Packed(rest, false, false);
    } else {
      var first := Spaced(items[0]);
      var after := if |items| == 1 then rest else [','] + (SpacedItems(items[1..]) + rest);
      assert SpacedItems(items) + rest == [' '] + (first + after);
      PackedPlain(' ', first + after);
      SpacedIsRenderedWithBlanks(items[0], after);
      if |items| > 1 {
        PackedPlain(',', SpacedItems(items[1..]) + rest);
        ItemsStay(items[1..], rest);
        assert RenderItems(items, true) + Packed(rest, false, false) ==
               Render(items[0], true) + ([','] + (RenderItems(items[1..], true) + Packed(rest, false, false)));
      }
    }
  }

  function SpacedField(f: Field): string { " " + RenderString(f.key, true) + ": " + Spaced(f.value) }

  lemma FieldStays(f: Field, after: string)
    requires Packed(Spaced(f.value) + after, false, false) == Render(f.value, true) + Packed(after, false, false)
    ensures Packed(SpacedField(f) + after, false, false) == RenderField(f, true) + Packed(after, false, false)
  {
    hide Packed, RenderString, Spaced, Render;
    var key, value, packed := RenderString(f.key, true), Spaced(f.value), Packed(after, false, false);
    assert SpacedField(f) + after == [' '] + (key + ([':'] + ([' '] + (value + after))));
    PackedPlain(' ', key + ([':'] + ([' '] + (value + after))));
    StringStays(f.key, [':'] + ([' '] + (value + after)));
    PackedPlain(':', [' '] + (value + after));
    PackedPlain(' ', value + after);
    assert RenderField(f, true) + packed == key + ([':'] + (Render(f.value, true) + packed));
  }

  lemma SpacedUnfolds(fields: seq<Field>)
    requires fields != []
    ensures SpacedFields(fields) ==
            SpacedField(fields[0]) + (if |fields| == 1 then "" else "," + SpacedFields(fields[1..]))
  {
    hide RenderString, Spaced;
  }

  lemma SpacedStep(fields: seq<Field>, rest: string)
    requires fields != []
    ensures SpacedFields(fields) + rest ==
            SpacedField(fields[0]) + (if |fields| == 1 then rest else [','] + (SpacedFields(fields[1..]) + rest))
  {
    hide SpacedField, SpacedFields;
    SpacedUnfolds(fields);
    var first, more := SpacedField(fields[0]), SpacedFields(fields[1..]);
    if |fields| == 1 {
      assert first + "" == first;
    } else {
      JoinAssociates(first, "," + more, rest);
      JoinAssociates([','], more, rest);
    }
  }

  lemma RenderedUnfolds(fields: seq<Field>)
    requires fields != []
    ensures RenderFields(fields, true) ==
            if |fields| == 1 then RenderField(fields[0], true)
            else RenderField(fields[0], true) + "," + RenderFields(fields[1..], true)
  {
    hide RenderField;
  }

  lemma RenderedStep(fields: seq<Field>, rest: string)
    requires fields != []
    ensures RenderFields(fields, true) + rest ==
            RenderField(fields[0], true) +
            (if |fields| == 1 then rest else [','] + (RenderFields(fields[1..], true) + rest))
  {
    hide RenderField, RenderFields;
    RenderedUnfolds(fields);
    if |fields| > 1 {
      var first, more := RenderField(fields[0], true), RenderFields(fields[1..], true);
      JoinAssociates(first, ",", more);
      JoinAssociates(first, "," + more, rest);
      JoinAssociates([','], more, rest);
    }
  }

  lemma {:induction false} FieldsStay(fields: seq<Field>, rest: string)
    ensures Packed(SpacedFields(fields) + rest, false, false) == RenderFields(fields, true) + Packed(rest, false, false)
    decreases fields, 0
  {
    hide Packed, Render, Spaced, RenderField, SpacedField;
    if fields == [] {
      assert "" + rest == rest;
      assert "" + Packed(rest, false, false) == Packed(rest, false, false);
    } else {
      hide SpacedFields, RenderFields;
      var after := if |fields| == 1 then rest else [','] + (SpacedFields(fields[1..]) + rest);
      SpacedIsRenderedWithBlanks(fields[0].value, after);
      FieldStays(fields[0], after);
      SpacedStep(fields, rest);
      RenderedStep(fields, Packed(rest, false, false));
      if |fields| > 1 {
        PackedPlain(',', SpacedFields(fields[1..]) + rest);
        FieldsStay(fields[1..], rest);
      }
    }
  }

  /** What it looks like: a blank inside every bracket and behind every comma and colon. */
  lemma SpacedLooksLike(key: string)
    ensures Spaced(JArray([])) == "[ ]" && Spaced(JObject([])) == "{ }"
    ensures Spaced(JArray([JBool(true), JBool(true)])) == "[ true, true ]"
    ensures SpacedField(Field(key, JBool(true))) == " " + RenderString(key, true) + ": true"
  {
    hide RenderString, SpacedFields, SpacedField, SpacedItems;
    SpacedList();
    SpacedFlag(key);
    NoSpacedFields();
  }

  lemma SpacedFlag(key: string)
    ensures SpacedField(Field(key, JBool(true))) == " " + RenderString(key, true) + ": true"
  {
    hide RenderString;
    assert Spaced(JBool(true)) == "true";
    JoinAssociates(" " + RenderString(key, true), ": ", "true");
  }

  lemma SpacedList()
    ensures SpacedItems([]) == "" && SpacedItems([JBool(true), JBool(true)]) == " true, true"
  {
    var list := [JBool(true), JBool(true)];
    assert list[1..] == [JBool(true)];
    assert Spaced(JBool(true)) == "true";
    assert SpacedItems(list[1..]) == " " + "true" + "";
    assert SpacedItems(list) == " " + "true" + ("," + SpacedItems(list[1..]));
  }

  lemma NoSpacedFields()
    ensures SpacedFields([]) == ""
  {
  }

  function DropFields(name: Json): seq<Field> { [Field("op", JString("drop_table")), Field("name", name)] }

  lemma DropFieldsRead(name: Json)
    ensures DecodeFields(DropFields(name)) == Some(Drop(TextOf(name)))
  {
    hide Lookup, TextOf, CStr, NulFree;
    KeysDiffer();
    LookupPresent(DropFields(name), 0, "op");
    LookupPresent(DropFields(name), 1, "name");
    WordsAreNulFree(INT);
    TextOfWord("drop_table");
  }

  lemma PackedText(v: Json)
    requires !v.JString?
    ensures Packed(TextOf(v), false, false) == Render(v, true)
  {
    hide Spaced, Packed, Render, CStr;
    SpacedIsRenderedWithBlanks(v, "");
    NothingPacked();
    assert Spaced(v) + "" == Spaced(v) && Render(v, true) + "" == Render(v, true);
  }

  /** A name that is no string names the table by its spaced text. */
  lemma OtherNamesAreTheirText(v: Json)
    requires !v.JString?
    ensures var op := Decode(Render(JObject(DropFields(v)), true));
            op.Some? && op.value.Drop? && Packed(op.value.table, false, false) == Render(v, true)
  {
    hide ParseValue, Render, Packed, TextOf, DecodeFields, DropFields;
    var o := JObject(DropFields(v));
    assert Render(o, true) + "" == Render(o, true);
    ParseUndoesRender(o, true, "");
    DropFieldsRead(v);
    PackedText(v);
  }

  lemma NothingPacked()
    ensures Packed("", false, false) == ""
  {
  }

  /* ---- rows ---- */

  lemma {:induction false} MemberKeys(fields: seq<Field>, k: string)
    requires forall i | 0 <= i < |fields| :: NulFree(fields[i].key)
    ensures k in SqlRows.ReadMembers(fields) <==> exists i :: 0 <= i < |fields| && fields[i].key == k
  {
    hide NulFree, CStr, SqlRows.ValueText;
    if fields != [] {
      var n := |fields| - 1;
      MemberKeys(fields[..n], k);
      CStrOfNulFree(fields[n].key);
    }
  }

  lemma {:induction false} MemberRead(fields: seq<Field>, i: nat)
    requires forall j | 0 <= j < |fields| :: NulFree(fields[j].key)
    requires i < |fields| && forall j | i < j < |fields| :: fields[j].key != fields[i].key
    ensures fields[i].key in SqlRows.ReadMembers(fields)
    ensures SqlRows.ReadMembers(fields)[fields[i].key] == SqlRows.ValueText(fields[i].value)
  {
    hide NulFree, CStr, SqlRows.ValueText;
    var n := |fields| - 1;
    CStrOfNulFree(fields[n].key);
    if i < n { MemberRead(fields[..n], i); }
  }

  /** A row whose members are not all strings: the last of several under one key stays; a text without a NUL
      is kept as it is, and any other value as a text that reads back as that value. */
  lemma ForeignRowReads(fields: seq<Field>, i: nat)
    requires forall j | 0 <= j < |fields| :: NulFree(fields[j].key)
    requires i < |fields| && forall j | i < j < |fields| :: fields[j].key != fields[i].key
    ensures var row := SqlRows.DecodeRow(Render(JObject(fields), true));
            row.Some? && (forall k :: k in row.value <==> exists j :: 0 <= j < |fields| && fields[j].key == k) &&
            fields[i].key in row.value &&
            var text := row.value[fields[i].key];
            if fields[i].value.JString? then NulFree(fields[i].value.text) ==> text == fields[i].value.text
            else ParseValue(text) == Got(fields[i].value, "")
  {
    hide ParseValue, Render, SqlRows.ReadMembers, NulFree, CStr;
    var v := JObject(fields);
    assert Render(v, true) + "" == Render(v, true);
    ParseUndoesRender(v, true, "");
    MemberRead(fields, i);
    forall k ensures k in SqlRows.ReadMembers(fields) <==> exists j :: 0 <= j < |fields| && fields[j].key == k {
      MemberKeys(fields, k);
    }
    var x := fields[i].value;
    if x.JString? {
      CStrNulFree(x.text);
    } else {
      assert Render(x, true) + "" == Render(x, true);
      ParseUndoesRender(x, true, "");
    }
  }

  /* ---- payloads that are passed over ---- */

  predicate NoKey(fields: seq<Field>, key: string) { forall i | 0 <= i < |fields| :: fields[i].key != key }

  /** Field i is the last under its key, a text without a NUL. */
  predicate LastText(fields: seq<Field>, i: nat, key: string)
  {
    i < |fields| && fields[i].key == key && fields[i].value.JString? && NulFree(fields[i].value.text) &&
    forall j | i < j < |fields| :: fields[j].key != key
  }

  lemma FieldsPassedOver(fields: seq<Field>, i: nat)
    requires NoKey(fields, "op") || NoKey(fields, "name") ||
             (LastText(fields, i, "op") && fields[i].value.text != "drop_table" &&
              (fields[i].value.text == "create_table" ==> NoKey(fields, "columns")))
    ensures DecodeFields(fields).None?
  {
    hide Lookup, TextOf, NulFree, DecodeColumns;
    if NoKey(fields, "op") {
      LookupAbsent(fields, "op");
    } else if NoKey(fields, "name") {
      LookupAbsent(fields, "name");
    } else {
      LookupPresent(fields, i, "op");
      TextOfWord(fields[i].value.text);
      if fields[i].value.text == "create_table" { LookupAbsent(fields, "columns"); }
    }
  }

  /** A payload without an op or a name, with another op, or a CREATE without columns changes nothing. */
  lemma OtherPayloadsChangeNothing(m: Meta, fields: seq<Field>, i: nat)
    requires NoKey(fields, "op") || NoKey(fields, "name") ||
             (LastText(fields, i, "op") && fields[i].value.text != "drop_table" &&
              (fields[i].value.text == "create_table" ==> NoKey(fields, "columns")))
    ensures ApplyPayload(m, Render(JObject(fields), true)) == m
  {
    hide ParseValue, Render, DecodeFields, LastText, NoKey;
    var v := JObject(fields);
    assert Render(v, true) + "" == Render(v, true);
    ParseUndoesRender(v, true, "");
    FieldsPassedOver(fields, i);
  }

  /** Nor does one that is no object, or a row that is none. */
  lemma OnlyObjectsCount(m: Meta, v: Json)
    requires !v.JObject?
    ensures ApplyPayload(m, Render(v, true)) == m && SqlRows.DecodeRow(Render(v, true)).None?
  {
    hide ParseValue, Render;
    assert Render(v, true) + "" == Render(v, true);
    ParseUndoesRender(v, true, "");
  }
}
