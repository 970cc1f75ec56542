/** Names in the archive: directories, window files, and the text a story id is hashed from. */
module ArchiveNames {
  import opened Text

  /* ---- directory names ---- */

  function EncodeChar(c: char): (s: string)
  {
    if c == '%' then "%25" else if c == '/' then "%2F" else if c == 0 as char then "%00" else [c]
  }

  function EncodeChars(name: string): string
  {
    if name == "" then "" else EncodeChar(name[0]) + EncodeChars(name[1..])
  }

  function Encoded(name: string): string
  {
    if name == "" then "%" else if name == "." then "%2E" else if name == ".." then "%2E%2E" else EncodeChars(name)
  }

  method EncodeArchiveName(name: string) returns (encoded: string)
    ensures encoded == Encoded(name)
  {
    if name == "" { return "%"; }
    if name == "." { return "%2E"; }
    if name == ".." { return "%2E%2E"; }
    encoded := "";
    assert name[0..] == name;
    for i := 0 to |name|
      invariant EncodeChars(name) == encoded + EncodeChars(name[i..])
    {
      assert name[i..][1..] == name[i + 1..];
      NextChar(encoded, name[i], name[i + 1..]);
      if name[i] == '%' {
        encoded := encoded + "%25";
      } else if name[i] == '/' {
        encoded := encoded + "%2F";
      } else if name[i] == 0 as char {
        encoded := encoded + "%00";
      } else {
        encoded := encoded + [name[i]];
      }
    }
    assert name[|name|..] == "";
  }

  lemma NextChar(encoded: string, c: char, rest: string)
    ensures encoded + (EncodeChar(c) + EncodeChars(rest)) == (encoded + EncodeChar(c)) + EncodeChars(rest)
  {
  }

  /** Undoes the encoding, escape by escape. */
  function DecodeChars(s: string): Option<string>
    decreases |s|
  {
    if s == "" then Some("")
    else if s[0] != '%' then
      match DecodeChars(s[1..]) case Some(r) => Some([s[0]] + r) case None => None
    else if |s| < 3 then None
    else
      match (EscapedChar(s[1], s[2]), DecodeChars(s[3..]))
      case (Some(c), Some(r)) => Some([c] + r)
      case _ => None
  }

  function EscapedChar(a: char, b: char): Option<char>
  {
    match (a, b)
    case ('2', '5') => Some('%')
    case ('2', 'F') => Some('/')
    case ('0', '0') => Some(0 as char)
    case ('2', 'E') => Some('.')
    case _ => None
  }

  function Decoded(s: string): Option<string> { if s == "%" then Some("") else DecodeChars(s) }

  lemma DecodePlain(c: char, rest: string)
    requires c != '%'
    ensures DecodeChars([c] + rest) == match DecodeChars(rest) case Some(r) => Some([c] + r) case None => None
  {
    assert ([c] + rest)[1..] == rest;
  }

  lemma DecodeEscape(a: char, b: char, rest: string)
    ensures DecodeChars(['%', a, b] + rest) ==
            match (EscapedChar(a, b), DecodeChars(rest)) case (Some(c), Some(r)) => Some([c] + r) case _ => None
  {
    assert (['%', a, b] + rest)[3..] == rest;
  }

  lemma {:induction false} DecodeUndoesEncode(name: string)
    ensures DecodeChars(EncodeChars(name)) == Some(name)
  {
    hide DecodeChars;
    if name == "" {
      DecodeNothing();
    } else {
      var rest := EncodeChars(name[1..]);
      var e := EncodeChar(name[0]);
      DecodeUndoesEncode(name[1..]);
      assert name == [name[0]] + name[1..];
      if |e| == 1 {
        DecodePlain(name[0], rest);
      } else {
        assert e == ['%', e[1], e[2]];
        DecodeEscape(e[1], e[2], rest);
      }
    }
  }

  lemma DecodeNothing()
    ensures DecodeChars("") == Some("")
  {
  }

  lemma EncodedStart(name: string)
    requires name != ""
    ensures var s := EncodeChars(name); s != "" && (s[0] == '%' ==> |s| >= 3 && (s[1] == '2' || s[1] == '0'))
  {
    hide EncodeChars;
    assert EncodeChars(name) == EncodeChar(name[0]) + EncodeChars(name[1..]) by { EncodeUnfolds(name); }
  }

  lemma EncodeUnfolds(name: string)
    requires name != ""
    ensures EncodeChars(name) == EncodeChar(name[0]) + EncodeChars(name[1..])
  {
  }

  lemma DecodeDots()
    ensures DecodeChars("%2E") == Some(".") && DecodeChars("%2E%2E") == Some("..")
    ensures DecodeChars(".") == Some(".") && DecodeChars("..") == Some("..")
  {
    hide DecodeChars;
    DecodeNothing();
    DecodeEscape('2', 'E', "");
    assert "%2E" == ['%', '2', 'E'] + "" && "." == ['.'] + "";
    DecodeEscape('2', 'E', "%2E");
    assert "%2E%2E" == ['%', '2', 'E'] + "%2E" && ".." == ['.'] + ".";
    DecodePlain('.', "");
    DecodePlain('.', ".");
  }

  /** The encoding can be undone. */
  lemma NameRoundTrip(name: string)
    ensures Decoded(Encoded(name)) == Some(name)
  {
    hide DecodeChars, EncodeChars;
    DecodeDots();
    DecodeUndoesEncode(name);
    if name != "" { EncodedStart(name); }
  }

  lemma NamesStayApart(a: string, b: string)
    requires Encoded(a) == Encoded(b)
    ensures a == b
  {
    hide Encoded, Decoded;
    NameRoundTrip(a);
    NameRoundTrip(b);
  }

  lemma {:induction false} EncodeIsClean(name: string)
    ensures '/' !in EncodeChars(name) && 0 as char !in EncodeChars(name)
  {
    if name != "" { EncodeIsClean(name[1..]); }
  }

  /** An encoded name is a directory name that is neither special nor the manifest's. */
  lemma EncodedIsADirectoryName(name: string)
    ensures var s := Encoded(name);
            s != "" && '/' !in s && 0 as char !in s && s != "." && s != ".." && s != "%manifest"
  {
    hide DecodeChars, EncodeChars;
    EncodeIsClean(name);
    DecodeDots();
    DecodeUndoesEncode(name);
    if name != "" { EncodedStart(name); }
    assert "%manifest"[1] == 'm';
  }

  /** A name is written as typed unless it holds a '%', a '/' or a NUL, or is empty, "." or "..". */
  lemma WrittenAsTypedExactly(name: string)
    ensures Encoded(name) == name <==>
            name !in {"", ".", ".."} && '%' !in name && '/' !in name && 0 as char !in name
  {
    hide EncodeChars;
    if name !in {"", ".", ".."} { KeptExactly(name); }
  }

  lemma {:induction false} KeptExactly(name: string)
    ensures |EncodeChars(name)| >= |name|
    ensures EncodeChars(name) == name <==> '%' !in name && '/' !in name && 0 as char !in name
    ensures |EncodeChars(name)| == |name| ==> EncodeChars(name) == name
  {
    if name != "" {
      KeptExactly(name[1..]);
      assert name == [name[0]] + name[1..];
      var rest := EncodeChars(name[1..]);
      assert EncodeChars(name) == EncodeChar(name[0]) + rest;
    }
  }

  predicate IsHexDigit(c: char) { IsDigit(c) || 'A' <= c <= 'F' }

  /** Every '%' in an encoded name is followed by two hex digits, or ends the encoding of the empty name. */
  lemma EscapesAreHex(name: string, i: nat)
    requires i < |Encoded(name)| && Encoded(name)[i] == '%'
    ensures if name == "" then i + 1 == |Encoded(name)|
            else i + 2 < |Encoded(name)| && IsHexDigit(Encoded(name)[i + 1]) && IsHexDigit(Encoded(name)[i + 2])
  {
    hide EncodeChars;
    if name !in {"", ".", ".."} { CharsAreHex(name, i); }
  }

  lemma {:induction false} CharsAreHex(name: string, i: nat)
    requires var s := EncodeChars(name); i < |s| && s[i] == '%'
    ensures var s := EncodeChars(name); i + 2 < |s| && IsHexDigit(s[i + 1]) && IsHexDigit(s[i + 2])
  {
    var e, rest := EncodeChar(name[0]), EncodeChars(name[1..]);
    assert EncodeChars(name) == e + rest;
    if i >= |e| { CharsAreHex(name[1..], i - |e|); }
  }

  /* ---- window files ---- */

  datatype WindowFile = WindowFile(startSecond: uint64, group: uint64, writerStart: uint64, incarnation: uint64,
                                   sequence: uint64)

  function WriterTag(group: uint64, writerStart: uint64): string { Decimal(group) + "." + Decimal(writerStart) }

  function WindowFileName(startTime: uint64, tag: string, incarnation: uint64, sequence: uint64): string
  {
    Decimal(startTime / 1000000000) + "." + tag + "." + Decimal(incarnation) + "." + Decimal(sequence) + ".vlen.h5"
  }

  /** Digits and the dot after them. */
  function TakeField(s: string): Option<(string, string)>
  {
    var k := DigitSpan(s);
    if 0 < k < |s| && s[k] == '.' then Some((s[..k], s[k + 1..])) else None
  }

  /** `n` dotted digit fields and what follows them. */
  function TakeFields(s: string, n: nat): (r: Option<(seq<string>, string)>)
    ensures r.Some? ==> |r.value.0| == n && forall i | 0 <= i < n :: AllDigits(r.value.0[i])
  {
    if n == 0 then Some(([], s))
    else
      match TakeField(s)
      case None => None
      case Some(f) =>
        var more := TakeFields(f.1, n - 1);
        if more.None? then None else Some(([f.0] + more.value.0, more.value.1))
  }

  predicate IsLineEnd(c: char) { c == '\n' || c == '\r' || c == 0x2028 as char || c == 0x2029 as char }

  /** (\.partial\..+)? to the end. */
  predicate PartialSuffix(s: string)
  {
    s == "" || (".partial." <= s && |s| > 9 && forall i | 9 <= i < |s| :: !IsLineEnd(s[i]))
  }

  /** vlen(\.[0-9]+)?\.h5(\.partial\..+)? */
  predicate VlenSuffix(s: string)
  {
    if !("vlen" <= s) then false
    else
      var t := s[4..];
      var k := if t != "" then DigitSpan(t[1..]) else 0;
      var u := if t != "" && t[0] == '.' && k > 0 then t[1 + k..] else t;
      ".h5" <= u && PartialSuffix(u[3..])
  }

  /** `parseWindowFileName`. */
  function ParseWindowFileName(name: string): Option<WindowFile>
  {
    match TakeFields(name, 5)
    case None => None
    case Some((fs, rest)) =>
      if VlenSuffix(rest) && forall i | 0 <= i < 5 :: ValueOf(fs[i]) <= UINT64_MAX
      then Some(WindowFile(ValueOf(fs[0]), ValueOf(fs[1]), ValueOf(fs[2]), ValueOf(fs[3]), ValueOf(fs[4])))
      else None
  }

  function Dotted(fs: seq<string>): string { if fs == [] then "" else fs[0] + "." + Dotted(fs[1..]) }

  /** One or more characters, none of them a line terminator. */
  predicate PartialText(x: string)
  {
    x != "" && '\n' !in x && '\r' !in x && 0x2028 as char !in x && 0x2029 as char !in x
  }

  lemma PartialExactly(s: string)
    ensures PartialSuffix(s) <==> s == "" || exists x :: PartialText(x) && s == ".partial." + x
  {
    if s != "" && PartialSuffix(s) {
      var x := s[9..];
      assert s == ".partial." + x;
      assert forall i | 0 <= i < |x| :: x[i] == s[9 + i];
    }
    if x :| PartialText(x) && s == ".partial." + x {
      assert s[..9] == ".partial.";
      forall i | 9 <= i < |s| ensures !IsLineEnd(s[i]) { assert s[i] == x[i - 9] && x[i - 9] in x; }
    }
  }

  /** The pattern, as a language: five dotted digit fields, then vlen, an optional digit field, h5 and
      an optional partial part. */
  ghost predicate InPattern(name: string, fs: seq<string>, extra: string, partial: string)
  {
    |fs| == 5 && (forall i | 0 <= i < 5 :: fs[i] != "" && AllDigits(fs[i])) &&
    (extra == "" || (|extra| > 1 && extra[0] == '.' && AllDigits(extra[1..]))) &&
    (partial == "" || exists x :: PartialText(x) && partial == ".partial." + x) &&
    name == Dotted(fs) + ("vlen" + extra + ".h5" + partial)
  }

  lemma FieldIsTaken(d: string, tail: string)
    requires d != "" && AllDigits(d)
    ensures TakeField(d + "." + tail) == Some((d, tail))
  {
    hide DigitSpan;
    var s := d + ("." + tail);
    assert d + "." + tail == s;
    DigitSpanOf(d, "." + tail);
    assert s[|d| + 1..] == tail;
  }

  lemma OneMoreTaken(s: string, fs: seq<string>, tail: string, rest: string)
    requires fs != [] && TakeField(s) == Some((fs[0], tail)) && TakeFields(tail, |fs| - 1) == Some((fs[1..], rest))
    ensures TakeFields(s, |fs|) == Some((fs, rest))
  {
    hide TakeField;
    assert [fs[0]] + fs[1..] == fs;
  }

  lemma {:induction false} FieldsAreTaken(fs: seq<string>, rest: string)
    requires forall i | 0 <= i < |fs| :: fs[i] != "" && AllDigits(fs[i])
    ensures TakeFields(Dotted(fs) + rest, |fs|) == Some((fs, rest))
  {
    hide TakeField;
    if fs == [] {
      assert Dotted(fs) + rest == rest;
    } else {
      var tail := Dotted(fs[1..]) + rest;
      JoinAssociates(fs[0] + ".", Dotted(fs[1..]), rest);
      FieldIsTaken(fs[0], tail);
      FieldsAreTaken(fs[1..], rest);
      OneMoreTaken(fs[0] + "." + tail, fs, tail, rest);
    }
  }

  lemma FieldIsFront(s: string)
    requires TakeField(s).Some?
    ensures var f := TakeField(s).value; s == f.0 + "." + f.1 && f.0 != ""
  {
  }

  lemma {:induction false} TakenIsDotted(s: string, n: nat)
    requires TakeFields(s, n).Some?
    ensures var (fs, rest) := TakeFields(s, n).value;
            s == Dotted(fs) + rest && forall i | 0 <= i < n :: fs[i] != ""
  {
    if n == 0 {
      assert "" + s == s;
    } else {
      var f := TakeField(s).value;
      FieldIsFront(s);
      hide TakeField;
      TakenIsDotted(f.1, n - 1);
      var (fs, rest) := TakeFields(s, n).value;
      assert fs[1..] == TakeFields(f.1, n - 1).value.0;
      assert s == f.0 + "." + Dotted(fs[1..]) + rest;
    }
  }

  lemma SuffixIsTaken(extra: string, partial: string)
    requires extra == "" || (|extra| > 1 && extra[0] == '.' && AllDigits(extra[1..]))
    requires PartialSuffix(partial)
    ensures VlenSuffix("vlen" + extra + ".h5" + partial)
  {
    hide PartialSuffix, DigitSpan;
    var end := ".h5" + partial;
    var t := extra + end;
    JoinAssociates("vlen" + extra, ".h5", partial);
    JoinAssociates("vlen", extra, end);
    CutWhereJoined("vlen", t);
    CutWhereJoined(".h5", partial);
    if extra == "" {
      assert t == end;
      NoDigitsBeforeEnd(partial);
    } else {
      assert t[1..] == extra[1..] + end;
      DigitSpanOf(extra[1..], end);
      CutWhereJoined(extra, end);
    }
  }

  lemma NoDigitsBeforeEnd(partial: string)
    ensures DigitSpan((".h5" + partial)[1..]) == 0
  {
    var t := (".h5" + partial)[1..];
    assert t[0] == 'h' && "" + t == t;
    DigitSpanOf("", t);
  }

  lemma SuffixSplits(s: string) returns (extra: string, partial: string)
    requires VlenSuffix(s)
    ensures extra == "" || (|extra| > 1 && extra[0] == '.' && AllDigits(extra[1..]))
    ensures PartialSuffix(partial) && s == "vlen" + extra + ".h5" + partial
  {
    hide PartialSuffix, DigitSpan;
    var t := s[4..];
    var k := if t != "" then DigitSpan(t[1..]) else 0;
    if t != "" && t[0] == '.' && k > 0 {
      extra, partial := t[..1 + k], t[1 + k..][3..];
      assert extra[1..] == t[1..][..k];
      assert t == extra + t[1 + k..];
    } else {
      extra, partial := "", t[3..];
    }
  }

  /** Exactly the names in the pattern whose five numbers fit in 64 bits are parsed, to those numbers. */
  lemma ParsesExactlyThePattern(name: string)
    ensures ParseWindowFileName(name).Some? <==>
            exists fs, extra, partial :: InPattern(name, fs, extra, partial) &&
              forall i | 0 <= i < 5 :: ValueOf(fs[i]) <= UINT64_MAX
  {
    hide VlenSuffix, PartialSuffix, TakeFields, Dotted;
    if ParseWindowFileName(name).Some? {
      var (fs, rest) := TakeFields(name, 5).value;
      TakenIsDotted(name, 5);
      var extra, partial := SuffixSplits(rest);
      PartialExactly(partial);
      assert InPattern(name, fs, extra, partial);
    }
    if fs, extra, partial :| InPattern(name, fs, extra, partial) &&
                             forall i | 0 <= i < 5 :: ValueOf(fs[i]) <= UINT64_MAX
    {
      PatternIsParsed(name, fs, extra, partial);
    }
  }

  lemma PatternIsParsed(name: string, fs: seq<string>, extra: string, partial: string)
    requires InPattern(name, fs, extra, partial) &&
              forall i | 0 <= i < 5 :: ValueOf(fs[i]) <= UINT64_MAX
    ensures ParseWindowFileName(name) ==
            Some(WindowFile(ValueOf(fs[0]), ValueOf(fs[1]), ValueOf(fs[2]), ValueOf(fs[3]), ValueOf(fs[4])))
  {
    hide VlenSuffix, PartialSuffix, TakeFields, Dotted;
    FieldsAreTaken(fs, "vlen" + extra + ".h5" + partial);
    PartialExactly(partial);
    SuffixIsTaken(extra, partial);
  }

  /** A window file's name, or that of a partial file of it, gives its fields back. */
  lemma WindowNameRoundTrip(startTime: uint64, group: uint64, writerStart: uint64, incarnation: uint64,
                            sequence: uint64, partial: string)
    requires PartialSuffix(partial)
    ensures ParseWindowFileName(
              WindowFileName(startTime, WriterTag(group, writerStart), incarnation, sequence) + partial) ==
            Some(WindowFile(startTime / 1000000000, group, writerStart, incarnation, sequence))
  {
    hide ParseWindowFileName, PartialSuffix, Decimal, ValueOf;
    var a, b, c := Decimal(startTime / 1000000000), Decimal(group), Decimal(writerStart);
    var d, e := Decimal(incarnation), Decimal(sequence);
    DecimalValue(startTime / 1000000000);
    DecimalValue(group);
    DecimalValue(writerStart);
    DecimalValue(incarnation);
    DecimalValue(sequence);
    var fs := [a, b, c, d, e];
    var name := WindowFileName(startTime, WriterTag(group, writerStart), incarnation, sequence) + partial;
    DottedFive(a, b, c, d, e);
    assert name == Dotted(fs) + ("vlen" + "" + ".h5" + partial);
    PartialExactly(partial);
    PatternIsParsed(name, fs, "", partial);
  }

  lemma DottedFive(a: string, b: string, c: string, d: string, e: string)
    ensures Dotted([a, b, c, d, e]) == a + "." + (b + "." + c) + "." + d + "." + e + "."
  {
    assert [a, b, c, d, e][1..] == [b, c, d, e] && [b, c, d, e][1..] == [c, d, e] && [c, d, e][1..] == [d, e];
    assert [d, e][1..] == [e] && [e][1..] == [];
    assert Dotted([e]) == e + "." + "" == e + ".";
    assert Dotted([d, e]) == d + "." + (e + ".");
    assert Dotted([c, d, e]) == c + "." + (d + "." + (e + "."));
    assert Dotted([b, c, d, e]) == b + "." + (c + "." + (d + "." + (e + ".")));
  }

  /* ---- story ids ---- */

  /** The text `storyIdOf` hashes. */
  function StoryText(chronicle: string, story: string): string { Decimal(|chronicle|) + ":" + chronicle + story }

  /** It tells where the chronicle's name ends, so different stories hash different texts. */
  lemma StoryTextInjective(c1: string, s1: string, c2: string, s2: string)
    requires StoryText(c1, s1) == StoryText(c2, s2)
    ensures c1 == c2 && s1 == s2
  {
    hide Decimal, DigitSpan;
    var t := StoryText(c1, s1);
    TextSplits(c1, s1);
    TextSplits(c2, s2);
    DecimalInjective(|c1|, |c2|);
    var k := |Decimal(|c1|)| + 1;
    assert t[k..k + |c1|] == c1 && t[k..k + |c1|] == c2;
    assert t[k + |c1|..] == s1 && t[k + |c1|..] == s2;
  }

  lemma TextSplits(c: string, s: string)
    ensures var t, d := StoryText(c, s), Decimal(|c|);
            DigitSpan(t) == |d| && t[..|d|] == d && |t| == |d| + 1 + |c| + |s| &&
            t[|d| + 1..|d| + 1 + |c|] == c && t[|d| + 1 + |c|..] == s
  {
    hide DigitSpan, Decimal;
    var d := Decimal(|c|);
    DigitSpanOf(d, ":" + c + s);
    assert StoryText(c, s) == d + (":" + c + s);
  }
}
