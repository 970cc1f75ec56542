/** A cut-short object with anything of its own kind, whole or cut short, glued to it never parses,
    wherever the cut fell. */
module JsonCut {
  import opened Text
  import opened Json

  /** The parser failed, or stands where no ',' '}' or ':' follows. */
  predicate Stuck<T>(r: Parsed<T>)
  {
    r.Nothing? || r.rest == "" || r.rest[0] == 'o' || r.rest[0] == '{'
  }

  /** Text that leaves the parser stuck whether a value or the inside of a string runs into it. */
  predicate Glue(g: string)
  {
    (g == "" || g[0] == '{') && Stuck(ParseValue(g)) && Stuck(ParseBody(g))
  }

  lemma CutEscapeFails(c: char, slash: bool, k: nat, g: string)
    requires 0 < k < |EscapeChar(c, slash)| && (g == "" || g[0] == '{')
    ensures var s := EscapeChar(c, slash)[..k] + g; s[0] == '\\' && Unescape(s[1..]).Nothing?
  {
    var e := EscapeChar(c, slash);
    var s := e[..k] + g;
    assert g != "" ==> s[k] == '{' && s[1..][k - 1] == '{';
    assert forall i | 0 <= i < k - 1 :: s[1..][i] == e[i + 1];
  }

  /** A string cut before its closing quote. */
  lemma {:induction false} CutBody(text: string, slash: bool, k: nat, g: string)
    requires Glue(g) && k <= |Escape(text, slash)|
    ensures Stuck(ParseBody(Escape(text, slash)[..k] + g))
    decreases |text|
  {
    hide ParseValue, EscapeChar, ParseBody, Unescape;
    var s := Escape(text, slash)[..k] + g;
    if k == 0 {
      assert s == g;
    } else {
      var e := EscapeChar(text[0], slash);
      if k < |e| {
        assert s == e[..k] + g;
        CutEscapeFails(text[0], slash, k, g);
        BodyStops(s);
      } else {
        var tail := Escape(text[1..], slash)[..k - |e|] + g;
        assert s == e + tail;
        CutBody(text[1..], slash, k - |e|, g);
        BodyStep(text[0], slash, tail);
      }
    }
  }

  lemma BodyStops(s: string)
    requires s != "" && s[0] == '\\' && Unescape(s[1..]).Nothing?
    ensures ParseBody(s).Nothing?
  {
  }

  lemma CutNumber(n: int, k: nat, g: string)
    requires Glue(g) && 0 < k <= |RenderInt(n)|
    ensures Stuck(ParseNumber(RenderInt(n)[..k] + g))
  {
    hide ParseValue, ParseDigits, Decimal, ValueOf;
    var d := Decimal(if n < 0 then -n else n);
    if n < 0 {
      assert (RenderInt(n)[..k] + g)[1..] == d[..k - 1] + g;
      ParseDigitsOf(d[..k - 1], g);
    } else {
      assert RenderInt(n)[..k] + g == d[..k] + g;
      ParseDigitsOf(d[..k], g);
    }
  }

  lemma CutScalar(v: Json, slash: bool, k: nat, g: string)
    requires Glue(g) && 0 < k < |Render(v, slash)| && (v.JInt? || v.JBool?)
    ensures Stuck(ParseValue(Render(v, slash)[..k] + g))
  {
    hide ParseObject, ParseArray, ParseText, ParseNumber;
    var s := Render(v, slash)[..k] + g;
    assert s[0] == Render(v, slash)[0];
    if v.JInt? {
      CutNumber(v.number, k, g);
      assert s[0] == '-' || IsDigit(s[0]);
    } else {
      assert g != "" ==> s[k] == '{';
      assert forall i | 0 <= i < k :: s[i] == Render(v, slash)[i];
    }
  }

  lemma CutString(text: string, slash: bool, k: nat, g: string)
    requires Glue(g) && 0 < k < |RenderString(text, slash)|
    ensures Stuck(ParseValue(RenderString(text, slash)[..k] + g))
  {
    hide ParseValue, ParseBody, Escape, Glue;
    var t := Escape(text, slash)[..k - 1] + g;
    assert RenderString(text, slash)[..k] + g == "\"" + t;
    CutBody(text, slash, k - 1, g);
    ParseValueByFirst(t);
  }

  predicate Scalar(v: Json) { v.JString? || v.JInt? || v.JBool? }

  /** A scalar value cut anywhere, its end included. */
  lemma CutValue(v: Json, slash: bool, k: nat, g: string)
    requires Glue(g) && k <= |Render(v, slash)| && Scalar(v)
    ensures Stuck(ParseValue(Render(v, slash)[..k] + g))
  {
    var full := Render(v, slash);
    var s := full[..k] + g;
    if k == 0 {
      assert s == g;
    } else if k == |full| {
      hide ParseValue;
      assert s == full + g;
      ParseUndoesRender(v, slash, g);
    } else if v.JString? {
      CutString(v.text, slash, k, g);
    } else {
      CutScalar(v, slash, k, g);
    }
  }

  lemma CutField(f: Field, slash: bool, k: nat, g: string)
    requires Glue(g) && k <= |RenderField(f, slash)| && Scalar(f.value)
    ensures Stuck(ParseField(RenderField(f, slash)[..k] + g))
  {
    hide ParseValue, ParseBody, Escape, Render;
    var s := RenderField(f, slash)[..k] + g;
    var e := Escape(f.key, slash);
    if k == 0 {
      assert s == g;
    } else if k <= 1 + |e| {
      assert s[1..] == e[..k - 1] + g;
      CutBody(f.key, slash, k - 1, g);
    } else if k == 2 + |e| {
      assert s[1..] == e + "\"" + g;
      ParseBodyUndoesEscape(f.key, slash, g);
    } else {
      var rest := ":" + (Render(f.value, slash)[..k - 3 - |e|] + g);
      assert s[1..] == e + "\"" + rest;
      ParseBodyUndoesEscape(f.key, slash, rest);
      assert rest[1..] == Render(f.value, slash)[..k - 3 - |e|] + g;
      CutValue(f.value, slash, k - 3 - |e|, g);
    }
  }

  lemma FieldsStuck(s: string)
    requires Stuck(ParseField(s))
    ensures ParseFields(s).Nothing?
  {
    hide ParseField;
  }

  lemma CutBehind(first: string, rest: string, k: nat, g: string)
    requires |first| < k <= |first| + 1 + |rest|
    ensures (first + "," + rest)[..k] + g == first + ("," + (rest[..k - |first| - 1] + g))
  {
    assert (first + "," + rest)[..k] == first + "," + rest[..k - |first| - 1];
  }

  lemma {:induction false} CutFields(fields: seq<Field>, slash: bool, k: nat, g: string)
    requires Glue(g) && fields != [] && k <= |RenderFields(fields, slash)|
    requires forall i | 0 <= i < |fields| :: Scalar(fields[i].value)
    ensures ParseFields(RenderFields(fields, slash)[..k] + g).Nothing?
    decreases |fields|
  {
    hide ParseField, RenderField, ParseValue, ParseFields, RenderFields, Glue, Scalar;
    var first := RenderField(fields[0], slash);
    var s := RenderFields(fields, slash)[..k] + g;
    RenderFieldsStep(fields, slash);
    if k <= |first| {
      assert s == first[..k] + g;
      CutField(fields[0], slash, k, g);
      FieldsStuck(s);
    } else {
      var tail := RenderFields(fields[1..], slash)[..k - |first| - 1] + g;
      CutBehind(first, RenderFields(fields[1..], slash), k, g);
      ParseFieldUndoesRender(fields[0], slash, "," + tail);
      FieldsStep(s, fields[0], "," + tail);
      CutWhereJoined(",", tail);
      CutFields(fields[1..], slash, k - |first| - 1, g);
    }
  }

  /** Any cut of a flat object, with glue behind it. */
  lemma CutObjectThenGlue(fields: seq<Field>, slash: bool, k: nat, g: string)
    requires Glue(g) && fields != [] && 0 < k < |Render(JObject(fields), slash)|
    requires forall i | 0 <= i < |fields| :: Scalar(fields[i].value)
    ensures ParseValue(Render(JObject(fields), slash)[..k] + g).Nothing?
  {
    hide ParseValue, ParseFields;
    var body := RenderFields(fields, slash);
    var t := body[..k - 1] + g;
    assert Render(JObject(fields), slash)[..k] + g == "{" + t;
    CutFields(fields, slash, k - 1, g);
    ParseValueByFirst(t);
    if k > 1 { assert t[0] == RenderField(fields[0], slash)[0] == '"'; }
  }
}
