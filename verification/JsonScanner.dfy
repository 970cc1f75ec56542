/** The hand-written brace scanner of the archive manifest, proved against rendered JSON:
    it finds the end of an object exactly, and finds none in a cut-short one. */
module JsonScanner {
  import opened Text
  import opened Json

  /** The scanner's three variables. `depth` may go below zero on a stray '}'. */
  datatype Scan = Scan(depth: int, inString: bool, escaped: bool)

  const START := Scan(0, false, false)

  /** One character: None when it closes the first object. */
  function Step(st: Scan, c: char): Option<Scan>
  {
    if st.inString then
      if st.escaped then Some(st.(escaped := false))
      else if c == '\\' then Some(st.(escaped := true))
      else if c == '"' then Some(st.(inString := false))
      else Some(st)
    else if c == '"' then Some(st.(inString := true))
    else if c == '{' then Some(st.(depth := st.depth + 1))
    else if c == '}' then if st.depth == 1 then None else Some(st.(depth := st.depth - 1))
    else Some(st)
  }

  /** The state after `text`, or None when an object closes inside it. */
  function Advance(st: Scan, text: string): Option<Scan>
    decreases |text|
  {
    if text == "" then Some(st)
    else
      var next := Step(st, text[0]);
      if next.None? then None else Advance(next.value, text[1..])
  }

  /** Index just past the closing brace of the first object, counted from `text`'s start. */
  function EndFrom(st: Scan, text: string): (e: Option<nat>)
    ensures e.Some? ==> 0 < e.value <= |text|
    decreases |text|
  {
    if text == "" then None
    else
      var next := Step(st, text[0]);
      if next.None? then Some(1)
      else
        var e := EndFrom(next.value, text[1..]);
        if e.None? then None else Some(1 + e.value)
  }

  function EndOfFirstObjectSpec(line: string): Option<nat> { EndFrom(START, line) }

  method EndOfFirstObject(line: string) returns (end: Option<nat>)
    ensures end == EndOfFirstObjectSpec(line)
  {
    var depth, inString, escaped := 0, false, false;
    for i := 0 to |line|
      invariant var e := EndFrom(Scan(depth, inString, escaped), line[i..]);
                EndOfFirstObjectSpec(line) == if e.None? then None else Some(i + e.value)
    {
      var c := line[i];
      assert line[i..][0] == c && line[i..][1..] == line[i + 1..];
      if inString {
        if escaped {
          escaped := false;
        } else if c == '\\' {
          escaped := true;
        } else if c == '"' {
          inString := false;
        }
      } else if c == '"' {
        inString := true;
      } else if c == '{' {
        depth := depth + 1;
      } else if c == '}' {
        depth := depth - 1;
        if depth == 0 { return Some(i + 1); }
      }
    }
    return None;
  }

  lemma {:induction false} AdvanceConcat(st: Scan, a: string, b: string)
    ensures Advance(st, a + b) == if Advance(st, a).None? then None else Advance(Advance(st, a).value, b)
    decreases |a|
  {
    if a == "" {
      assert a + b == b;
    } else {
      assert (a + b)[1..] == a[1..] + b;
      var next := Step(st, a[0]);
      if next.Some? { AdvanceConcat(next.value, a[1..], b); }
    }
  }

  /** An end is found exactly where an object closes. */
  lemma {:induction false} EndWhereAdvanceStops(st: Scan, text: string)
    ensures EndFrom(st, text).None? <==> Advance(st, text).Some?
    decreases |text|
  {
    if text != "" && Step(st, text[0]).Some? { EndWhereAdvanceStops(Step(st, text[0]).value, text[1..]); }
  }

  lemma {:induction false} EndAfterOpenPrefix(st: Scan, open: string, c: char, more: string)
    requires Advance(st, open).Some? && Step(Advance(st, open).value, c).None?
    ensures EndFrom(st, open + [c] + more) == Some(|open| + 1)
    decreases |open|
  {
    var s := open + [c] + more;
    if open != "" {
      assert s[1..] == open[1..] + [c] + more;
      EndAfterOpenPrefix(Step(st, open[0]).value, open[1..], c, more);
    }
  }

  /* ---- the scanner over rendered values ---- */

  predicate Outside(st: Scan) { !st.inString && !st.escaped && st.depth >= 1 }

  lemma {:induction false} EscapeStaysInside(st: Scan, text: string, slash: bool)
    requires st.inString && !st.escaped
    ensures Advance(st, Escape(text, slash)) == Some(st)
  {
    if text != "" {
      var e := EscapeChar(text[0], slash);
      AdvanceConcat(st, e, Escape(text[1..], slash));
      EscapeStaysInside(st, text[1..], slash);
      EscapeCharStaysInside(st, text[0], slash);
    }
  }

  lemma EscapeCharStaysInside(st: Scan, c: char, slash: bool)
    requires st.inString && !st.escaped
    ensures Advance(st, EscapeChar(c, slash)) == Some(st)
  {
    var e := EscapeChar(c, slash);
    if |e| == 1 {
      assert e[1..] == "";
    } else if |e| == 2 {
      assert e == ['\\', e[1]] && e[1..] == [e[1]] && e[1..][1..] == "";
      assert Advance(st.(escaped := true), [e[1]]) == Some(st);
    } else {
      AdvanceUnicodeEscape(st, e[4], e[5]);
      assert e == "\\u00" + [e[4], e[5]];
    }
  }

  lemma AdvanceUnicodeEscape(st: Scan, hi: char, lo: char)
    requires st.inString && !st.escaped
    requires hi != '"' && hi != '\\' && lo != '"' && lo != '\\'
    ensures Advance(st, "\\u00" + [hi, lo]) == Some(st)
  {
    var t := "\\u00" + [hi, lo];
    assert t[1..] == "u00" + [hi, lo];
    assert t[1..][1..] == "00" + [hi, lo];
    assert t[1..][1..][1..] == "0" + [hi, lo];
    assert t[1..][1..][1..][1..] == [hi, lo];
    assert [hi, lo][1..] == [lo];
    assert [lo][1..] == "";
    assert Advance(st, [lo]) == Some(st);
    assert Advance(st, [hi, lo]) == Some(st);
    assert Advance(st, "0" + [hi, lo]) == Some(st);
    assert Advance(st, "00" + [hi, lo]) == Some(st);
  }

  lemma StringStaysOutside(st: Scan, text: string, slash: bool)
    requires Outside(st)
    ensures Advance(st, RenderString(text, slash)) == Some(st)
  {
    var e := Escape(text, slash);
    var inside := st.(inString := true);
    EscapeStaysInside(inside, text, slash);
    AdvanceConcat(inside, e, "\"");
    assert RenderString(text, slash)[1..] == e + "\"";
  }

  /** Text with no quote and no brace leaves the scanner as it was. */
  lemma {:induction false} PlainStaysOutside(st: Scan, text: string)
    requires Outside(st)
    requires forall i | 0 <= i < |text| :: text[i] != '"' && text[i] != '{' && text[i] != '}'
    ensures Advance(st, text) == Some(st)
  {
    if text != "" { PlainStaysOutside(st, text[1..]); }
  }

  lemma {:induction false} ValueStaysOutside(st: Scan, v: Json, slash: bool)
    requires Outside(st)
    ensures Advance(st, Render(v, slash)) == Some(st)
    decreases v, 1
  {
    hide Escape, EscapeChar;
    match v {
      case JString(text) =>
        StringStaysOutside(st, text, slash);
      case JInt(n) =>
        PlainStaysOutside(st, Render(v, slash));
      case JBool(_) =>
        PlainStaysOutside(st, Render(v, slash));
      case JArray(items) =>
        ItemsStayOutside(st, items, slash);
        AdvanceConcat(st, "[" + RenderItems(items, slash), "]");
        AdvanceConcat(st, "[", RenderItems(items, slash));
        PlainStaysOutside(st, "[");
        PlainStaysOutside(st, "]");
      case JObject(fields) =>
        var inner := st.(depth := st.depth + 1);
        FieldsStayOutside(inner, fields, slash);
        AdvanceConcat(st, "{" + RenderFields(fields, slash), "}");
        AdvanceConcat(st, "{", RenderFields(fields, slash));
        assert "{"[1..] == "" && "}"[1..] == "";
    }
  }

  lemma {:induction false} ItemsStayOutside(st: Scan, items: seq<Json>, slash: bool)
    requires Outside(st)
    ensures Advance(st, RenderItems(items, slash)) == Some(st)
    decreases items, 0
  {
    hide Render;
    if items != [] {
      ValueStaysOutside(st, items[0], slash);
      if |items| > 1 {
        var head := Render(items[0], slash);
        ItemsStayOutside(st, items[1..], slash);
        AdvanceConcat(st, head + ",", RenderItems(items[1..], slash));
        AdvanceConcat(st, head, ",");
        PlainStaysOutside(st, ",");
      }
    }
  }

  lemma {:induction false} FieldStaysOutside(st: Scan, f: Field, slash: bool)
    requires Outside(st)
    ensures Advance(st, RenderField(f, slash)) == Some(st)
    decreases f, 0
  {
    hide Render, RenderString;
    var key := RenderString(f.key, slash);
    StringStaysOutside(st, f.key, slash);
    ValueStaysOutside(st, f.value, slash);
    AdvanceConcat(st, key + ":", Render(f.value, slash));
    AdvanceConcat(st, key, ":");
    PlainStaysOutside(st, ":");
  }

  lemma {:induction false} FieldsStayOutside(st: Scan, fields: seq<Field>, slash: bool)
    requires Outside(st)
    ensures Advance(st, RenderFields(fields, slash)) == Some(st)
    decreases fields, 0
  {
    hide RenderField;
    if fields != [] {
      FieldStaysOutside(st, fields[0], slash);
      if |fields| > 1 {
        var head := RenderField(fields[0], slash);
        FieldsStayOutside(st, fields[1..], slash);
        AdvanceConcat(st, head + ",", RenderFields(fields[1..], slash));
        AdvanceConcat(st, head, ",");
        PlainStaysOutside(st, ",");
      }
    }
  }

  /** A rendered object without its closing brace leaves the scanner one level deep. */
  lemma OpenObject(fields: seq<Field>, slash: bool)
    ensures Advance(START, "{" + RenderFields(fields, slash)) == Some(Scan(1, false, false))
  {
    hide RenderFields;
    FieldsStayOutside(Scan(1, false, false), fields, slash);
    AdvanceConcat(START, "{", RenderFields(fields, slash));
    assert "{"[1..] == "";
  }

  /** A whole object, followed by anything, ends where its rendering does. */
  lemma ObjectEndsAtItsBrace(fields: seq<Field>, slash: bool, more: string)
    ensures var line := Render(JObject(fields), slash);
            EndOfFirstObjectSpec(line + more) == Some(|line|)
  {
    hide RenderFields;
    var open := "{" + RenderFields(fields, slash);
    OpenObject(fields, slash);
    EndAfterOpenPrefix(START, open, '}', more);
  }

  /** No end is found in any proper prefix of an object. */
  lemma CutObjectHasNoEnd(fields: seq<Field>, slash: bool, k: nat)
    requires k < |Render(JObject(fields), slash)|
    ensures EndOfFirstObjectSpec(Render(JObject(fields), slash)[..k]).None?
  {
    hide RenderFields;
    var open := "{" + RenderFields(fields, slash);
    var line := Render(JObject(fields), slash);
    assert line[..k] == open[..k];
    assert open == open[..k] + open[k..];
    OpenObject(fields, slash);
    AdvanceConcat(START, open[..k], open[k..]);
    EndWhereAdvanceStops(START, open[..k]);
  }
}
