/** How the LDMS bridge writes a metric's characters as a JSON string. */
module LdmsJson {
  import opened Text
  import opened Json

  const NUL := 0 as char

  /** The characters `json_string` takes from memory: up to the first NUL, and no more than maxLen. */
  function Taken(memory: string, maxLen: nat): (r: string)
    ensures r <= memory && |r| <= maxLen && NUL !in r
    ensures |r| == maxLen || r == memory || memory[|r|] == NUL
  {
    if memory == "" || maxLen == 0 || memory[0] == NUL then "" else [memory[0]] + Taken(memory[1..], maxLen - 1)
  }

  /** One byte. Unlike json-c it has no short form for backspace and form feed. */
  function EscapeByte(c: char): (s: string)
    ensures s != ""
  {
    match c
    case '"' => "\\\""
    case '\\' => "\\\\"
    case '\n' => "\\n"
    case '\r' => "\\r"
    case '\t' => "\\t"
    case _ => if c < ' ' then "\\u00" + [HexDigit(c as int / 16), HexDigit(c as int % 16)] else [c]
  }

  function EscapeBytes(text: string): string
  {
    if text == "" then "" else EscapeByte(text[0]) + EscapeBytes(text[1..])
  }

  function Quoted(text: string): string { "\"" + EscapeBytes(text) + "\"" }

  /** A pointer may be followed maxLen bytes or to a NUL, whichever comes first. */
  predicate Followable(memory: string, maxLen: nat) { maxLen <= |memory| || NUL in memory }

  lemma FollowOne(memory: string, maxLen: nat)
    requires 0 < maxLen && Followable(memory, maxLen)
    ensures memory != ""
    ensures memory[0] == NUL ==> Taken(memory, maxLen) == ""
    ensures memory[0] != NUL ==>
              Followable(memory[1..], maxLen - 1) &&
              Taken(memory, maxLen) == [memory[0]] + Taken(memory[1..], maxLen - 1)
  {
    assert memory == [memory[0]] + memory[1..];
  }

  /** A buffer need not end with a NUL as long as maxLen stays inside it; None is a null pointer. */
  method JsonString(s: Option<string>, maxLen: nat) returns (out: string)
    requires s.Some? ==> Followable(s.value, maxLen)
    ensures out == Quoted(if s.None? then "" else Taken(s.value, maxLen))
  {
    hide Taken, EscapeBytes, Followable;
    out := "\"";
    ghost var all := if s.None? then "" else Taken(s.value, maxLen);
    if s.Some? {
      var memory := s.value;
      assert memory[0..] == memory;
      var p := 0;
      while p < maxLen
        invariant p <= maxLen && p <= |memory| && Followable(memory[p..], maxLen - p)
        invariant out + EscapeBytes(Taken(memory[p..], maxLen - p)) == "\"" + EscapeBytes(all)
        decreases maxLen - p
      {
        FollowOne(memory[p..], maxLen - p);
        assert memory[p..][1..] == memory[p + 1..];
        if memory[p] == NUL { break; }
        OneByteOut(out, memory[p], Taken(memory[p + 1..], maxLen - p - 1));
        out := WriteByte(out, memory[p]);
        p := p + 1;
      }
      assert Taken(memory[p..], maxLen - p) == "";
    }
    EscapeNothing();
    assert out + "" == out;
    out := out + "\"";
  }

  method WriteByte(out: string, c: char) returns (more: string)
    ensures more == out + EscapeByte(c)
  {
    match c {
      case '"' => more := out + "\\\"";
      case '\\' => more := out + "\\\\";
      case '\n' => more := out + "\\n";
      case '\r' => more := out + "\\r";
      case '\t' => more := out + "\\t";
      case _ =>
        if c < ' ' {
          more := out + ("\\u00" + [HexDigit(c as int / 16), HexDigit(c as int % 16)]);
        } else {
          more := out + [c];
        }
    }
  }

  lemma EscapeNothing()
    ensures EscapeBytes("") == ""
  {
  }

  lemma OneByteOut(out: string, c: char, rest: string)
    ensures out + EscapeBytes([c] + rest) == out + EscapeByte(c) + EscapeBytes(rest)
  {
    assert ([c] + rest)[1..] == rest;
    JoinAssociates(out, EscapeByte(c), EscapeBytes(rest));
  }

  lemma UnescapeUndoesByte(c: char, rest: string)
    ensures var e := EscapeByte(c) + rest;
            if e[0] == '\\' then Unescape(e[1..]) == Got(c, rest) else e[0] == c != '"' && e[1..] == rest
  {
    var e := EscapeByte(c) + rest;
    if c < ' ' { HexRoundTrip(c); }
    if e[0] == '\\' {
      if e[1] == 'u' {
        assert e[1..][5..] == rest;
      } else {
        assert e[1..][1..] == rest;
      }
    }
  }

  lemma ByteStep(c: char, tail: string)
    ensures ParseBody(EscapeByte(c) + tail) ==
            match ParseBody(tail) case Nothing => Nothing case Got(text, rest) => Got([c] + text, rest)
  {
    hide EscapeByte, Unescape;
    UnescapeUndoesByte(c, tail);
    if (EscapeByte(c) + tail)[0] == '"' { QuoteIsEscaped(c); }
  }

  lemma QuoteIsEscaped(c: char)
    ensures EscapeByte(c)[0] != '"'
  {
  }

  lemma {:induction false} BodyUndoesBytes(text: string, rest: string)
    ensures ParseBody(EscapeBytes(text) + "\"" + rest) == Got(text, rest)
  {
    hide EscapeByte, Unescape, ParseBody;
    var s := EscapeBytes(text) + "\"" + rest;
    if text == "" {
      assert s == "\"" + rest;
      BodyEnds(rest);
    } else {
      var tail := EscapeBytes(text[1..]) + "\"" + rest;
      assert s == EscapeByte(text[0]) + tail;
      BodyUndoesBytes(text[1..], rest);
      ByteStep(text[0], tail);
      assert text == [text[0]] + text[1..];
    }
  }

  /** What is written is one JSON string, whatever follows it, and reads back as the characters taken;
      of the memory behind them it depends on nothing. */
  lemma MetricTextReadsBack(memory: string, beyond: string, maxLen: nat, rest: string)
    requires Followable(memory, maxLen)
    ensures Taken(memory + beyond, maxLen) == Taken(memory, maxLen)
    ensures ParseValue(Quoted(Taken(memory + beyond, maxLen)) + rest) == Got(JString(Taken(memory, maxLen)), rest)
  {
    hide ParseBody, EscapeBytes, Taken;
    var text := Taken(memory, maxLen);
    NothingBeyond(memory, beyond, maxLen);
    BodyUndoesBytes(text, rest);
    assert Quoted(text) + rest == "\"" + (EscapeBytes(text) + "\"" + rest);
    ParseValueByFirst(EscapeBytes(text) + "\"" + rest);
  }

  lemma StillFollowable(memory: string, beyond: string, maxLen: nat)
    requires Followable(memory, maxLen)
    ensures Followable(memory + beyond, maxLen)
  {
  }

  lemma {:induction false} NothingBeyond(memory: string, beyond: string, maxLen: nat)
    requires Followable(memory, maxLen)
    ensures Taken(memory + beyond, maxLen) == Taken(memory, maxLen)
  {
    hide Taken, Followable;
    if maxLen > 0 {
      FollowOne(memory, maxLen);
      StillFollowable(memory, beyond, maxLen);
      FollowOne(memory + beyond, maxLen);
      if memory[0] != NUL {
        assert (memory + beyond)[1..] == memory[1..] + beyond;
        NothingBeyond(memory[1..], beyond, maxLen - 1);
      }
    }
  }

  /** With the default bound a text without a NUL is taken whole. */
  lemma {:induction false} TerminatedTextIsTakenWhole(text: string, after: string, maxLen: nat)
    requires NUL !in text && |text| <= maxLen
    ensures Taken(text + [NUL] + after, maxLen) == text
  {
    if text == "" {
      assert (text + [NUL] + after)[0] == NUL;
    } else {
      assert (text + [NUL] + after)[1..] == text[1..] + [NUL] + after;
      assert text[0] in text;
      TerminatedTextIsTakenWhole(text[1..], after, maxLen - 1);
    }
  }
}
