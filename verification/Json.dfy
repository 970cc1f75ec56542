/** The JSON text the archive manifest and the ChronoSQL schema log are written in:
    json-c's plain rendering (no blanks, strings escaped as in section 7 of RFC 8259)
    and a parser of that compact form. */
module Json {
  import opened Text

  datatype Json =
    | JString(text: string)
    | JInt(number: int)
    | JBool(flag: bool)
    | JArray(items: seq<Json>)
    | JObject(fields: seq<Field>)

  datatype Field = Field(key: string, value: Json)

  /* ---- rendering ---- */

  function HexDigit(d: nat): (c: char)
    requires d < 16
  {
    if d < 10 then DigitOf(d) else ('a' as int + (d - 10)) as char
  }

  /** One character inside a JSON string. json-c escapes '/' unless told not to. */
  function EscapeChar(c: char, slash: bool): (s: string)
    ensures s != ""
  {
    match c
    case '"' => "\\\""
    case '\\' => "\\\\"
    case '\n' => "\\n"
    case '\r' => "\\r"
    case '\t' => "\\t"
    case _ =>
      if c == 8 as char then "\\b"
      else if c == 12 as char then "\\f"
      else if c == '/' && slash then "\\/"
      else if c < ' ' then "\\u00" + [HexDigit(c as int / 16), HexDigit(c as int % 16)]
      else [c]
  }

  function Escape(text: string, slash: bool): string
  {
    if text == "" then "" else EscapeChar(text[0], slash) + Escape(text[1..], slash)
  }

  function RenderString(text: string, slash: bool): string
  {
    "\"" + Escape(text, slash) + "\""
  }

  function RenderInt(n: int): string
  {
    if n < 0 then "-" + Decimal(-n) else Decimal(n)
  }

  function Render(v: Json, slash: bool): (s: string)
    decreases v, 1
  {
    match v
    case JString(text) => RenderString(text, slash)
    case JInt(n) => RenderInt(n)
    case JBool(flag) => if flag then "true" else "false"
    case JArray(items) => "[" + RenderItems(items, slash) + "]"
    case JObject(fields) => "{" + RenderFields(fields, slash) + "}"
  }

  function RenderItems(items: seq<Json>, slash: bool): string
    decreases items, 0
  {
    if items == [] then ""
    else if |items| == 1 then Render(items[0], slash)
    else Render(items[0], slash) + "," + RenderItems(items[1..], slash)
  }

  function RenderField(f: Field, slash: bool): string
    decreases f, 0
  {
    RenderString(f.key, slash) + ":" + Render(f.value, slash)
  }

  function RenderFields(fields: seq<Field>, slash: bool): string
    decreases fields, 0
  {
    if fields == [] then ""
    else if |fields| == 1 then RenderField(fields[0], slash)
    else RenderField(fields[0], slash) + "," + RenderFields(fields[1..], slash)
  }

  /* ---- parsing ---- */

  datatype Parsed<+T> = Nothing | Got(value: T, rest: string)

  function HexValue(c: char): Option<nat>
  {
    if IsDigit(c) then Some(c as int - '0' as int)
    else if 'a' <= c <= 'f' then Some(c as int - 'a' as int + 10)
    else if 'A' <= c <= 'F' then Some(c as int - 'A' as int + 10)
    else None
  }

  /** What follows a backslash. A \u escape is read where it names one byte. */
  function Unescape(s: string): (r: Parsed<char>)
    ensures r.Got? ==> |r.rest| < |s|
  {
    if s == "" then Nothing else
      match s[0]
      case '"' => Got('"', s[1..])
      case '\\' => Got('\\', s[1..])
      case '/' => Got('/', s[1..])
      case 'n' => Got('\n', s[1..])
      case 'r' => Got('\r', s[1..])
      case 't' => Got('\t', s[1..])
      case 'b' => Got(8 as char, s[1..])
      case 'f' => Got(12 as char, s[1..])
      case 'u' =>
        if |s| < 5 || s[1] != '0' || s[2] != '0' then Nothing else
          (match (HexValue(s[3]), HexValue(s[4]))
           case (Some(hi), Some(lo)) => if hi < 8 then Got((hi * 16 + lo) as char, s[5..]) else Nothing
           case _ => Nothing)
      case _ => Nothing
  }

  /** The rest of a string, its opening quote already read. */
  function ParseBody(s: string): (r: Parsed<string>)
    ensures r.Got? ==> |r.rest| < |s|
    decreases |s|
  {
    if s == "" then Nothing
    else if s[0] == '"' then Got("", s[1..])
    else
      var c := if s[0] == '\\' then Unescape(s[1..]) else Got(s[0], s[1..]);
      if c.Nothing? then Nothing else
        var tail := ParseBody(c.rest);
        if tail.Nothing? then Nothing else Got([c.value] + tail.value, tail.rest)
  }

  function ParseDigits(s: string): (r: Parsed<nat>)
    ensures r.Got? ==> |r.rest| < |s|
  {
    var k := DigitSpan(s);
    if k == 0 then Nothing else Got(ValueOf(s[..k]), s[k..])
  }

  function ParseNumber(s: string): (r: Parsed<Json>)
    ensures r.Got? ==> |r.rest| < |s|
  {
    if s != "" && s[0] == '-' then
      var d := ParseDigits(s[1..]);
      if d.Nothing? then Nothing else Got(JInt(0 - d.value), d.rest)
    else
      var d := ParseDigits(s);
      if d.Nothing? then Nothing else Got(JInt(d.value), d.rest)
  }

  function ParseWord(s: string, word: string, v: Json): (r: Parsed<Json>)
    requires word != ""
    ensures r.Got? ==> |r.rest| < |s|
  {
    if word <= s then Got(v, s[|word|..]) else Nothing
  }

  function ParseText(s: string): (r: Parsed<Json>)
    ensures r.Got? ==> |r.rest| < |s|
  {
    var b := ParseBody(s);
    if b.Nothing? then Nothing else Got(JString(b.value), b.rest)
  }

  /** One value; the first character says which kind. */
  function ParseValue(s: string): (r: Parsed<Json>)
    ensures r.Got? ==> |r.rest| < |s|
    decreases |s|, 1
  {
    if s == "" then Nothing else
      match s[0]
      case '"' => ParseText(s[1..])
      case '{' => ParseObject(s[1..])
      case '[' => ParseArray(s[1..])
      case 't' => ParseWord(s, "true", JBool(true))
      case 'f' => ParseWord(s, "false", JBool(false))
      case _ => ParseNumber(s)
  }

  /** An object, its opening brace already read. */
  function ParseObject(s: string): (r: Parsed<Json>)
    ensures r.Got? ==> |r.rest| < |s|
    decreases |s|, 4
  {
    if s != "" && s[0] == '}' then Got(JObject([]), s[1..]) else
      var f := ParseFields(s);
      if f.Nothing? then Nothing else Got(JObject(f.value), f.rest)
  }

  function ParseArray(s: string): (r: Parsed<Json>)
    ensures r.Got? ==> |r.rest| < |s|
    decreases |s|, 4
  {
    if s != "" && s[0] == ']' then Got(JArray([]), s[1..]) else
      var f := ParseItems(s);
      if f.Nothing? then Nothing else Got(JArray(f.value), f.rest)
  }

  /** The items of an array and its closing bracket. */
  function ParseItems(s: string): (r: Parsed<seq<Json>>)
    ensures r.Got? ==> |r.rest| < |s|
    decreases |s|, 2
  {
    var v := ParseValue(s);
    if v.Nothing? || v.rest == "" then Nothing
    else if v.rest[0] == ']' then Got([v.value], v.rest[1..])
    else if v.rest[0] == ',' then
      var more := ParseItems(v.rest[1..]);
      if more.Nothing? then Nothing else Got([v.value] + more.value, more.rest)
    else Nothing
  }

  function ParseField(s: string): (r: Parsed<Field>)
    ensures r.Got? ==> |r.rest| < |s|
    decreases |s|, 2
  {
    if s == "" || s[0] != '"' then Nothing else
      var k := ParseBody(s[1..]);
      if k.Nothing? || k.rest == "" || k.rest[0] != ':' then Nothing else
        var v := ParseValue(k.rest[1..]);
        if v.Nothing? then Nothing else Got(Field(k.value, v.value), v.rest)
  }

  /** The fields of an object and its closing brace. */
  function ParseFields(s: string): (r: Parsed<seq<Field>>)
    ensures r.Got? ==> |r.rest| < |s|
    decreases |s|, 3
  {
    var f := ParseField(s);
    if f.Nothing? || f.rest == "" then Nothing
    else if f.rest[0] == '}' then Got([f.value], f.rest[1..])
    else if f.rest[0] == ',' then
      var more := ParseFields(f.rest[1..]);
      if more.Nothing? then Nothing else Got([f.value] + more.value, more.rest)
    else Nothing
  }

  /* ---- parsing undoes rendering ---- */

  lemma HexRoundTrip(c: char)
    requires c < ' '
    ensures HexValue(HexDigit(c as int / 16)) == Some(c as int / 16)
    ensures HexValue(HexDigit(c as int % 16)) == Some(c as int % 16)
  {
  }

  lemma UnescapeUndoesEscape(c: char, slash: bool, rest: string)
    ensures var e := EscapeChar(c, slash) + rest;
            if e[0] == '\\' then Unescape(e[1..]) == Got(c, rest) else e[0] == c != '"' && e[1..] == rest
  {
    var e := EscapeChar(c, slash) + rest;
    if c < ' ' { HexRoundTrip(c); }
    if e[0] == '\\' {
      if e[1] == 'u' {
        assert e[1..][5..] == rest;
      } else {
        assert e[1..][1..] == rest;
      }
    }
  }

  lemma {:induction false} ParseBodyUndoesEscape(text: string, slash: bool, rest: string)
    ensures ParseBody(Escape(text, slash) + "\"" + rest) == Got(text, rest)
  {
    hide EscapeChar, Unescape, ParseBody;
    var s := Escape(text, slash) + "\"" + rest;
    if text == "" {
      assert s == "\"" + rest;
      BodyEnds(rest);
    } else {
      var tail := Escape(text[1..], slash) + "\"" + rest;
      assert s == EscapeChar(text[0], slash) + tail;
      ParseBodyUndoesEscape(text[1..], slash, rest);
      BodyStep(text[0], slash, tail);
      assert text == [text[0]] + text[1..];
    }
  }

  lemma BodyEnds(rest: string)
    ensures ParseBody("\"" + rest) == Got("", rest)
  {
    assert ("\"" + rest)[1..] == rest;
  }

  /** The body parser reads one escaped character and goes on behind it. */
  lemma BodyStep(c: char, slash: bool, tail: string)
    ensures ParseBody(EscapeChar(c, slash) + tail) ==
            match ParseBody(tail) case Nothing => Nothing case Got(text, rest) => Got([c] + text, rest)
  {
    hide EscapeChar, Unescape;
    var s := EscapeChar(c, slash) + tail;
    UnescapeUndoesEscape(c, slash, tail);
    if s[0] == '"' { NoBareQuote(c, slash); }
  }

  lemma NoBareQuote(c: char, slash: bool)
    ensures EscapeChar(c, slash)[0] != '"'
  {
  }

  predicate NoDigitNext(rest: string) { rest == "" || !IsDigit(rest[0]) }

  lemma ParseDigitsOf(d: string, rest: string)
    requires AllDigits(d) && NoDigitNext(rest)
    ensures ParseDigits(d + rest) == if d == "" then Nothing else Got(ValueOf(d), rest)
  {
    hide DigitSpan, ValueOf;
    DigitSpanOf(d, rest);
  }

  lemma ParseNumberUndoesRender(n: int, rest: string)
    requires NoDigitNext(rest)
    ensures ParseNumber(RenderInt(n) + rest) == Got(JInt(n), rest)
  {
    hide ParseDigits, Decimal, ValueOf;
    var d := Decimal(if n < 0 then -n else n);
    ParseDigitsOf(d, rest);
    DecimalValue(if n < 0 then -n else n);
    if n < 0 {
      assert (RenderInt(n) + rest)[1..] == d + rest;
    } else {
      assert IsDigit((d + rest)[0]);
    }
  }

  lemma ParseValueByFirst(t: string)
    ensures ParseValue("\"" + t) == ParseText(t)
    ensures ParseValue("{" + t) == ParseObject(t)
    ensures ParseValue("[" + t) == ParseArray(t)
  {
    hide ParseText, ParseObject, ParseArray;
    assert ("\"" + t)[1..] == t && ("{" + t)[1..] == t && ("[" + t)[1..] == t;
  }

  lemma ParseScalarUndoesRender(v: Json, slash: bool, rest: string)
    requires v.JInt? || v.JBool?
    requires NoDigitNext(rest)
    ensures ParseValue(Render(v, slash) + rest) == Got(v, rest)
  {
    hide ParseText, ParseObject, ParseArray, ParseNumber;
    var s := Render(v, slash) + rest;
    if v.JInt? {
      ParseNumberUndoesRender(v.number, rest);
      assert s[0] == RenderInt(v.number)[0] && (s[0] == '-' || IsDigit(s[0]));
    } else {
      assert s[|Render(v, slash)|..] == rest;
    }
  }

  /** Every JSON value reads back as itself, whatever follows it. */
  lemma {:induction false} ParseUndoesRender(v: Json, slash: bool, rest: string)
    requires NoDigitNext(rest)
    ensures ParseValue(Render(v, slash) + rest) == Got(v, rest)
    decreases v, 1
  {
    hide ParseValue, ParseBody, ParseObject, ParseArray;
    var s := Render(v, slash) + rest;
    match v {
      case JString(text) =>
        var t := Escape(text, slash) + "\"" + rest;
        assert s == "\"" + t;
        ParseBodyUndoesEscape(text, slash, rest);
        ParseValueByFirst(t);
      case JArray(items) =>
        var t := RenderItems(items, slash) + "]" + rest;
        assert s == "[" + t;
        ParseArrayUndoesRender(items, slash, rest);
        ParseValueByFirst(t);
      case JObject(fields) =>
        var t := RenderFields(fields, slash) + "}" + rest;
        assert s == "{" + t;
        ParseObjectUndoesRender(fields, slash, rest);
        ParseValueByFirst(t);
      case _ =>
        ParseScalarUndoesRender(v, slash, rest);
    }
  }

  lemma {:induction false} ParseArrayUndoesRender(items: seq<Json>, slash: bool, rest: string)
    ensures ParseArray(RenderItems(items, slash) + "]" + rest) == Got(JArray(items), rest)
    decreases items, 1
  {
    hide ParseItems, Render;
    var s := RenderItems(items, slash) + "]" + rest;
    if items == [] {
      assert s == "]" + rest && s[1..] == rest;
    } else {
      ParseItemsUndoesRender(items, slash, rest);
      RenderStarts(items[0], slash);
      assert s[0] == Render(items[0], slash)[0];
    }
  }

  lemma {:induction false} ParseObjectUndoesRender(fields: seq<Field>, slash: bool, rest: string)
    ensures ParseObject(RenderFields(fields, slash) + "}" + rest) == Got(JObject(fields), rest)
    decreases fields, 1
  {
    hide ParseFields;
    var s := RenderFields(fields, slash) + "}" + rest;
    if fields == [] {
      assert s == "}" + rest && s[1..] == rest;
    } else {
      ParseFieldsUndoesRender(fields, slash, rest);
      assert s[0] == RenderField(fields[0], slash)[0] == '"';
    }
  }

  lemma RenderStarts(v: Json, slash: bool)
    ensures Render(v, slash) != "" && Render(v, slash)[0] != ']'
  {
  }

  lemma JoinBehindComma(first: string, more: string, end: string, rest: string)
    ensures first + "," + more + end + rest == first + ("," + (more + end + rest))
  {
    assert first + "," + more == first + ("," + more);
    assert ("," + more) + end + rest == "," + (more + end + rest);
  }

  lemma RenderItemsStep(items: seq<Json>, slash: bool)
    requires items != []
    ensures RenderItems(items, slash) ==
            if |items| == 1 then Render(items[0], slash)
            else Render(items[0], slash) + "," + RenderItems(items[1..], slash)
  {
    hide Render;
  }

  lemma RenderFieldsStep(fields: seq<Field>, slash: bool)
    requires fields != []
    ensures RenderFields(fields, slash) ==
            if |fields| == 1 then RenderField(fields[0], slash)
            else RenderField(fields[0], slash) + "," + RenderFields(fields[1..], slash)
  {
    hide RenderField;
  }

  /** The list parser, one element at a time. */
  lemma ItemsStep(s: string, x: Json, rest: string)
    requires ParseValue(s) == Got(x, rest)
    ensures "]" <= rest ==> ParseItems(s) == Got([x], rest[1..])
    ensures "," <= rest ==>
              ParseItems(s) ==
              match ParseItems(rest[1..]) case Nothing => Nothing case Got(more, r) => Got([x] + more, r)
  {
    hide ParseValue;
  }

  lemma {:induction false} ParseItemsUndoesRender(items: seq<Json>, slash: bool, rest: string)
    requires items != []
    ensures ParseItems(RenderItems(items, slash) + "]" + rest) == Got(items, rest)
    decreases items, 0
  {
    hide ParseValue, Render, ParseItems, RenderItems;
    RenderItemsStep(items, slash);
    var s := RenderItems(items, slash) + "]" + rest;
    if |items| == 1 {
      JoinAssociates(Render(items[0], slash), "]", rest);
      ParseUndoesRender(items[0], slash, "]" + rest);
      ItemsStep(s, items[0], "]" + rest);
      CutWhereJoined("]", rest);
      assert items == [items[0]];
    } else {
      var tail := RenderItems(items[1..], slash) + "]" + rest;
      var more := RenderItems(items[1..], slash);
      JoinBehindComma(Render(items[0], slash), more, "]", rest);
      ParseUndoesRender(items[0], slash, "," + tail);
      ItemsStep(s, items[0], "," + tail);
      CutWhereJoined(",", tail);
      ParseItemsUndoesRender(items[1..], slash, rest);
      assert items == [items[0]] + items[1..];
    }
  }

  lemma {:induction false} ParseFieldUndoesRender(f: Field, slash: bool, rest: string)
    requires NoDigitNext(rest)
    ensures ParseField(RenderField(f, slash) + rest) == Got(f, rest)
    decreases f, 0
  {
    hide ParseBody, ParseValue, Render, Escape;
    var s := RenderField(f, slash) + rest;
    var tail := ":" + Render(f.value, slash) + rest;
    assert s[1..] == Escape(f.key, slash) + "\"" + tail;
    ParseBodyUndoesEscape(f.key, slash, tail);
    assert tail[1..] == Render(f.value, slash) + rest;
    ParseUndoesRender(f.value, slash, rest);
  }

  /** The list parser, one element at a time. */
  lemma FieldsStep(s: string, x: Field, rest: string)
    requires ParseField(s) == Got(x, rest)
    ensures "}" <= rest ==> ParseFields(s) == Got([x], rest[1..])
    ensures "," <= rest ==>
              ParseFields(s) ==
              match ParseFields(rest[1..]) case Nothing => Nothing case Got(more, r) => Got([x] + more, r)
  {
    hide ParseField;
  }

  lemma {:induction false} ParseFieldsUndoesRender(fields: seq<Field>, slash: bool, rest: string)
    requires fields != []
    ensures ParseFields(RenderFields(fields, slash) + "}" + rest) == Got(fields, rest)
    decreases fields, 0
  {
    hide ParseField, RenderField, ParseFields, RenderFields;
    RenderFieldsStep(fields, slash);
    var s := RenderFields(fields, slash) + "}" + rest;
    if |fields| == 1 {
      JoinAssociates(RenderField(fields[0], slash), "}", rest);
      ParseFieldUndoesRender(fields[0], slash, "}" + rest);
      FieldsStep(s, fields[0], "}" + rest);
      CutWhereJoined("}", rest);
      assert fields == [fields[0]];
    } else {
      var tail := RenderFields(fields[1..], slash) + "}" + rest;
      var more := RenderFields(fields[1..], slash);
      JoinBehindComma(RenderField(fields[0], slash), more, "}", rest);
      ParseFieldUndoesRender(fields[0], slash, "," + tail);
      FieldsStep(s, fields[0], "," + tail);
      CutWhereJoined(",", tail);
      ParseFieldsUndoesRender(fields[1..], slash, rest);
      assert fields == [fields[0]] + fields[1..];
    }
  }

  /* ---- a rendering is one line ---- */

  predicate Printable(s: string) { forall i | 0 <= i < |s| :: s[i] >= ' ' }

  lemma {:induction false} EscapePrintable(text: string, slash: bool)
    ensures Printable(Escape(text, slash))
  {
    if text != "" { EscapePrintable(text[1..], slash); }
  }

  /** No control character, so no newline, survives rendering. */
  lemma {:induction false} RenderPrintable(v: Json, slash: bool)
    ensures Printable(Render(v, slash))
    decreases v, 1
  {
    hide Escape, Decimal;
    match v {
      case JString(text) => EscapePrintable(text, slash);
      case JArray(items) => ItemsPrintable(items, slash);
      case JObject(fields) => FieldsPrintable(fields, slash);
      case _ =>
    }
  }

  lemma {:induction false} ItemsPrintable(items: seq<Json>, slash: bool)
    ensures Printable(RenderItems(items, slash))
    decreases items, 0
  {
    hide Render;
    if items != [] {
      RenderPrintable(items[0], slash);
      ItemsPrintable(items[1..], slash);
    }
  }

  lemma {:induction false} FieldsPrintable(fields: seq<Field>, slash: bool)
    ensures Printable(RenderFields(fields, slash))
    decreases fields, 0
  {
    hide Render, Escape;
    if fields != [] {
      EscapePrintable(fields[0].key, slash);
      RenderPrintable(fields[0].value, slash);
      FieldsPrintable(fields[1..], slash);
    }
  }

  /** `json_object_object_get_ex`: a repeated key has its last value. */
  function Lookup(fields: seq<Field>, key: string): Option<Json>
  {
    if fields == [] then None
    else
      var last := fields[|fields| - 1];
      if last.key == key then Some(last.value) else Lookup(fields[..|fields| - 1], key)
  }

  lemma {:induction false} LookupPresent(fields: seq<Field>, i: nat, key: string)
    requires i < |fields| && fields[i].key == key
    requires forall j | i < j < |fields| :: fields[j].key != key
    ensures Lookup(fields, key) == Some(fields[i].value)
  {
    if i < |fields| - 1 { LookupPresent(fields[..|fields| - 1], i, key); }
  }

  lemma {:induction false} LookupAbsent(fields: seq<Field>, key: string)
    requires forall j | 0 <= j < |fields| :: fields[j].key != key
    ensures Lookup(fields, key) == None
  {
    if fields != [] { LookupAbsent(fields[..|fields| - 1], key); }
  }
}
