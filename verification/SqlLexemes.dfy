/** The words, marks, literals and numbers a statement is made of, and which texts spell them. */
module SqlLexemes {
  import opened Text
  import opened SqlLexer

  /** Words are lower-case: a text may write them in any case. */
  datatype Lexeme = Word(word: string) | Mark(mark: char) | Quoted(text: string) | Bare(number: string)

  predicate IsWord(s: string) { s != "" && IsIdentStart(s[0]) && forall i | 0 <= i < |s| :: IsIdentChar(s[i]) }

  /** An identifier as the parser gives it: lower-case letters, digits and underscores. */
  predicate IsName(s: string) { IsWord(s) && Lower(s) == s }

  /** Digits with at most one dot, or none once a dot was seen. */
  predicate NumberPart(s: string, seenDot: bool)
  {
    (forall i | 0 <= i < |s| :: IsDigit(s[i]) || s[i] == '.') && (seenDot ==> '.' !in s) &&
    forall i, j | 0 <= i < j < |s| :: s[i] != '.' || s[j] != '.'
  }

  function Unsigned(s: string): string { if s != "" && IsSign(s[0]) then s[1..] else s }

  /** An optional sign, a digit, and digits with at most one dot among them. */
  predicate IsNumber(s: string)
  {
    var d := Unsigned(s);
    d != "" && IsDigit(d[0]) && NumberPart(d, false)
  }

  predicate LexemeOk(l: Lexeme)
  {
    match l
    case Word(w) => IsName(w)
    case Mark(c) => Punctuation(c).Some?
    case Quoted(_) => true
    case Bare(x) => IsNumber(x)
  }

  predicate AllOk(ls: seq<Lexeme>) { forall i | 0 <= i < |ls| :: LexemeOk(ls[i]) }

  /** A literal's text between its quotes. */
  function Doubled(text: string): string
  {
    if text == "" then "" else (if text[0] == '\'' then "''" else [text[0]]) + Doubled(text[1..])
  }

  function Spelling(l: Lexeme): string
  {
    match l
    case Word(w) => w
    case Mark(c) => [c]
    case Quoted(text) => "'" + Doubled(text) + "'"
    case Bare(x) => x
  }

  predicate Writes(s: string, l: Lexeme) { if l.Word? then Lower(s) == l.word else s == Spelling(l) }

  /** What follows does not go on with the lexeme. */
  predicate Ends(l: Lexeme, rest: string)
  {
    rest == "" ||
    match l
    case Word(_) => !IsIdentChar(rest[0])
    case Mark(_) => true
    case Quoted(_) => rest[0] != '\''
    case Bare(x) => !IsDigit(rest[0]) && (rest[0] == '.' ==> '.' in x)
  }

  /** The text spells these lexemes one after the other, with blanks anywhere between, before and behind
      them; without a blank only where the next one cannot be taken for more of the one before. */
  ghost predicate Spells(sql: string, ls: seq<Lexeme>)
    decreases |sql|
  {
    if sql != "" && IsSpace(sql[0]) then Spells(sql[1..], ls)
    else if ls == [] then sql == ""
    else
      var n := |Spelling(ls[0])|;
      0 < n <= |sql| && Writes(sql[..n], ls[0]) && Ends(ls[0], sql[n..]) && Spells(sql[n..], ls[1..])
  }

  /** The token a lexeme is read as, but for its offset. */
  predicate Fits(t: Token, l: Lexeme)
  {
    match l
    case Word(w) => t.kind == Ident && t.text == w == Lower(t.original)
    case Mark(c) => Some(t.kind) == Punctuation(c)
    case Quoted(text) => t.kind == StringLit && t.text == text
    case Bare(x) => t.kind == (if '.' in x then Decimal else Integer) && t.text == x
  }

  /* ---- one lexeme, one token ---- */

  lemma {:induction false} IdentSpanIs(s: string)
    ensures var k := IdentSpan(s);
            (forall i | 0 <= i < k :: IsIdentChar(s[i])) && (k < |s| ==> !IsIdentChar(s[k]))
  {
    if s != "" && IsIdentChar(s[0]) {
      IdentSpanIs(s[1..]);
      assert forall i | 1 <= i < |s| :: s[i] == s[1..][i - 1];
    }
  }

  lemma {:induction false} NumberSpanIs(s: string, seenDot: bool)
    ensures var (k, dot) := NumberSpan(s, seenDot);
            NumberPart(s[..k], seenDot) && (dot <==> seenDot || '.' in s[..k]) &&
            (k < |s| ==> !IsDigit(s[k]) && (s[k] == '.' ==> dot))
    decreases |s|
  {
    if s != "" && (IsDigit(s[0]) || (s[0] == '.' && !seenDot)) {
      var seen := seenDot || s[0] == '.';
      NumberSpanIs(s[1..], seen);
      var k := NumberSpan(s[1..], seen).0;
      assert s[..k + 1] == [s[0]] + s[1..][..k];
    }
  }

  /** Only one stretch of digits and a dot ends where it does. */
  lemma NumberSpanExactly(s: string, n: nat, seenDot: bool)
    requires n <= |s| && NumberPart(s[..n], seenDot)
    requires n < |s| ==> !IsDigit(s[n]) && (s[n] == '.' ==> seenDot || '.' in s[..n])
    ensures NumberSpan(s, seenDot) == (n, seenDot || '.' in s[..n])
  {
    hide NumberSpan;
    NumberSpanIs(s, seenDot);
    var k := NumberSpan(s, seenDot).0;
    if k < n {
      assert s[..n][k] == s[k];
      OnlyDot(s, n, seenDot, k);
      assert false;
    } else if n < k {
      assert s[..k][n] == s[n];
      OnlyDot(s, k, seenDot, n);
      assert false;
    }
  }

  lemma OnlyDot(s: string, n: nat, seenDot: bool, k: nat)
    requires k < n <= |s| && NumberPart(s[..n], seenDot)
    ensures s[k] == '.' ==> !seenDot && '.' !in s[..k]
  {
    assert s[..n][k] == s[k];
    if s[k] == '.' {
      forall i | 0 <= i < k ensures s[i] != '.' { assert s[..n][i] == s[i]; }
    }
  }

  lemma {:induction false} StringBodyOfDoubled(text: string, rest: string)
    requires rest == "" || rest[0] != '\''
    ensures StringBody(Doubled(text) + ("'" + rest)) == Some((text, |Doubled(text)| + 1))
  {
    hide StringBody;
    var end := "'" + rest;
    if text == "" {
      assert Doubled("") + end == end;
      BodyStep(end);
    } else {
      var tail := Doubled(text[1..]) + end;
      StringBodyOfDoubled(text[1..], rest);
      var front := if text[0] == '\'' then "''" else [text[0]];
      JoinAssociates(front, Doubled(text[1..]), end);
      BodyStep(front + tail);
      CutWhereJoined(front, tail);
      assert text == [text[0]] + text[1..];
    }
  }

  lemma {:induction false} StringBodyIs(s: string)
    requires StringBody(s).Some?
    ensures var (text, n) := StringBody(s).value;
            n <= |s| && s[..n] == Doubled(text) + "'" && (n < |s| ==> s[n] != '\'')
    decreases |s|
  {
    hide StringBody;
    if s == "" { NoBody(); }
    BodyStep(s);
    if s[0] != '\'' {
      StringBodyIs(s[1..]);
      BodyGrows(s, [s[0]]);
    } else if |s| > 1 && s[1] == '\'' {
      StringBodyIs(s[2..]);
      assert s[..2] == "''";
      BodyGrows(s, "''");
    }
  }

  lemma BodyGrows(s: string, front: string)
    requires front == "''" || (|front| == 1 && front[0] != '\'')
    requires front <= s && StringBody(s[|front|..]).Some?
    requires var (text, n) := StringBody(s[|front|..]).value;
             |front| + n <= |s| && s[|front|..][..n] == Doubled(text) + "'" &&
             (n < |s[|front|..]| ==> s[|front|..][n] != '\'')
    ensures var (text, n) := StringBody(s[|front|..]).value;
            s[..|front| + n] == Doubled([front[0]] + text) + "'" && (|front| + n < |s| ==> s[|front| + n] != '\'')
  {
    hide StringBody;
    var (text, n) := StringBody(s[|front|..]).value;
    assert ([front[0]] + text)[1..] == text;
    assert s[..|front| + n] == front + s[|front|..][..n];
  }

  lemma WordIsRead(s: string, n: nat, w: string, base: nat)
    requires 0 < n <= |s| && IsName(w) && Lower(s[..n]) == w && Ends(Word(w), s[n..])
    ensures !IsSpace(s[0]) && NextToken(s, base) == Ok((Token(Ident, w, s[..n], base), n))
  {
    hide IdentSpan;
    IdentSpanIs(s);
    forall i | 0 <= i < n ensures IsIdentChar(s[i]) { assert w[i] == LowerChar(s[i]); }
    assert w[0] == LowerChar(s[0]);
    assert n < |s| ==> s[n..][0] == s[n];
  }

  lemma NumberIsRead(s: string, n: nat, base: nat)
    requires 0 < n <= |s| && IsNumber(s[..n]) && Ends(Bare(s[..n]), s[n..])
    ensures !IsSpace(s[0]) &&
            NextToken(s, base) == Ok((Token(if '.' in s[..n] then Decimal else Integer, s[..n], s[..n], base), n))
  {
    hide NumberSpan, StringBody, IdentSpan, NumberPart;
    var x := s[..n];
    assert n < |s| ==> s[n..][0] == s[n];
    if IsSign(s[0]) {
      assert s[1..][..n - 1] == x[1..] && x == [x[0]] + x[1..];
      assert s[1] == x[1..][0];
      NumberSpanExactly(s[1..], n - 1, false);
    } else {
      NumberSpanExactly(s, n, false);
    }
  }

  lemma QuotedIsRead(text: string, rest: string, base: nat)
    requires Ends(Quoted(text), rest)
    ensures var s := Spelling(Quoted(text)) + rest;
            NextToken(s, base) == Ok((Token(StringLit, text, text, base), |Spelling(Quoted(text))|))
  {
    hide StringBody, Doubled;
    StringBodyOfDoubled(text, rest);
    assert (Spelling(Quoted(text)) + rest)[1..] == Doubled(text) + ("'" + rest);
  }

  /** A lexeme at the front of a text that does not go on with it is read as one token. */
  lemma LexemeIsRead(s: string, l: Lexeme, base: nat)
    requires var n := |Spelling(l)|; 0 < n <= |s| && Writes(s[..n], l) && Ends(l, s[n..]) && LexemeOk(l)
    ensures !IsSpace(s[0]) && NextToken(s, base).Ok? &&
            NextToken(s, base).value.1 == |Spelling(l)| && Fits(NextToken(s, base).value.0, l)
  {
    hide StringBody, NumberSize, IdentSpan, Doubled, IsNumber, IsName, Ends, NextToken;
    var n := |Spelling(l)|;
    match l {
      case Word(w) => WordIsRead(s, n, w, base);
      case Mark(_) => MarkIsRead(s, base);
      case Quoted(text) =>
        assert s == Spelling(l) + s[n..];
        QuotedIsRead(text, s[n..], base);
      case Bare(_) => NumberIsRead(s, n, base);
    }
  }

  lemma MarkIsRead(s: string, base: nat)
    requires s != "" && Punctuation(s[0]).Some?
    ensures !IsSpace(s[0]) && NextToken(s, base) == Ok((Token(Punctuation(s[0]).value, [s[0]], [s[0]], base), 1))
  {
    hide StringBody, NumberSize, IdentSpan;
  }

  /** The lexeme a token was read from. */
  function LexemeOf(t: Token): Lexeme
  {
    match t.kind
    case Ident => Word(t.text)
    case StringLit => Quoted(t.text)
    case Integer => Bare(t.text)
    case Decimal => Bare(t.text)
    case LParen => Mark('(')
    case RParen => Mark(')')
    case Comma => Mark(',')
    case Semicolon => Mark(';')
    case Equals => Mark('=')
    case Star => Mark('*')
    case End => Word("")
  }

  /** And the other way round: a token is read from a text that writes its lexeme and ends there. */
  ghost predicate ReadFrom(s: string, t: Token, n: nat)
  {
    var l := LexemeOf(t);
    LexemeOk(l) && Fits(t, l) && 0 < n == |Spelling(l)| <= |s| && Writes(s[..n], l) && Ends(l, s[n..])
  }

  lemma IdentIsWritten(s: string, base: nat)
    requires s != "" && IsIdentStart(s[0])
    ensures var n := IdentSpan(s); ReadFrom(s, Token(Ident, Lower(s[..n]), s[..n], base), n)
  {
    hide IdentSpan;
    IdentSpanIs(s);
    var n := IdentSpan(s);
    var w := Lower(s[..n]);
    assert forall i | 0 <= i < n :: w[i] == LowerChar(s[i]) && IsIdentChar(w[i]);
    assert Lower(w) == w;
    assert n < |s| ==> s[n..][0] == s[n];
  }

  lemma NumberIsWritten(s: string, base: nat)
    requires s != "" && StartsNumber(s)
    ensures var (n, dot) := NumberSize(s);
            ReadFrom(s, Token(if dot then Decimal else Integer, s[..n], s[..n], base), n)
  {
    hide NumberSpan;
    var (n, dot) := NumberSize(s);
    var x := s[..n];
    if IsSign(s[0]) {
      NumberSpanIs(s[1..], false);
      assert x[1..] == s[1..][..n - 1] && x == [x[0]] + x[1..];
      assert s[1..][0] == s[1];
      assert n < |s| ==> s[1..][n - 1] == s[n];
    } else {
      NumberSpanIs(s, false);
    }
    assert n < |s| ==> s[n..][0] == s[n];
  }

  lemma QuotedIsWritten(s: string, base: nat)
    requires s != "" && s[0] == '\'' && StringBody(s[1..]).Some?
    ensures var (text, n) := StringBody(s[1..]).value; ReadFrom(s, Token(StringLit, text, text, base), 1 + n)
  {
    hide StringBody, Doubled;
    StringBodyIs(s[1..]);
    var (text, n) := StringBody(s[1..]).value;
    assert s[..1 + n] == "'" + s[1..][..n];
    assert "'" + (Doubled(text) + "'") == "'" + Doubled(text) + "'";
    assert 1 + n < |s| ==> s[1 + n..][0] == s[1..][n];
  }

  lemma TokenIsWritten(s: string, base: nat)
    requires s != "" && !IsSpace(s[0]) && NextToken(s, base).Ok?
    ensures ReadFrom(s, NextToken(s, base).value.0, NextToken(s, base).value.1)
  {
    hide StringBody, NumberSize, IdentSpan, ReadFrom;
    if Punctuation(s[0]).Some? {
      MarkIsWritten(s, base);
    } else if s[0] == '\'' {
      QuotedIsWritten(s, base);
    } else if StartsNumber(s) {
      NumberIsWritten(s, base);
    } else {
      IdentIsWritten(s, base);
    }
  }

  lemma MarkIsWritten(s: string, base: nat)
    requires s != "" && Punctuation(s[0]).Some?
    ensures ReadFrom(s, Token(Punctuation(s[0]).value, [s[0]], [s[0]], base), 1)
  {
  }

  /* ---- the whole text ---- */

  /** Tokens that read the lexemes, then End. */
  ghost predicate Reads(toks: seq<Token>, ls: seq<Lexeme>)
  {
    |toks| == |ls| + 1 && toks[|ls|].kind == End && forall i | 0 <= i < |ls| :: Fits(toks[i], ls[i])
  }

  lemma ReadOneMore(t: Token, toks: seq<Token>, ls: seq<Lexeme>)
    requires ls != [] && Fits(t, ls[0]) && Reads(toks, ls[1..])
    ensures Reads([t] + toks, ls)
  {
    hide Fits;
  }

  lemma SpellsStep(sql: string, ls: seq<Lexeme>)
    requires sql != "" && !IsSpace(sql[0])
    ensures Spells(sql, ls) <==>
            ls != [] && 0 < |Spelling(ls[0])| <= |sql| && Writes(sql[..|Spelling(ls[0])|], ls[0]) &&
            Ends(ls[0], sql[|Spelling(ls[0])|..]) && Spells(sql[|Spelling(ls[0])|..], ls[1..])
    ensures Spells("", ls) <==> ls == []
  {
    hide Spelling, Writes, Ends;
  }

  /** A text that spells proper lexemes is read as their tokens. */
  lemma {:induction false} SpelledIsRead(sql: string, ls: seq<Lexeme>, base: nat)
    requires AllOk(ls) && Spells(sql, ls)
    ensures Tokens(sql, base).Ok? && Reads(Tokens(sql, base).value, ls)
    decreases |sql|
  {
    hide NextToken, Spelling, Fits, LexemeOk, Writes, Ends, Tokens;
    if sql == "" {
      NothingIsRead(ls, base);
    } else if IsSpace(sql[0]) {
      TokensStep(sql, base);
      SpelledIsRead(sql[1..], ls, base + 1);
    } else {
      TokensStep(sql, base);
      SpellsStep(sql, ls);
      LexemeIsRead(sql, ls[0], base);
      var t := NextToken(sql, base).value;
      SpelledIsRead(sql[t.1..], ls[1..], base + t.1);
      ReadOneMore(t.0, Tokens(sql[t.1..], base + t.1).value, ls);
    }
  }

  lemma NothingIsRead(ls: seq<Lexeme>, base: nat)
    requires Spells("", ls)
    ensures ls == [] && Tokens("", base).Ok? && Reads(Tokens("", base).value, [])
  {
  }

  /** Whatever the tokenizer takes spells proper lexemes. */
  lemma {:induction false} ReadIsSpelled(sql: string, base: nat) returns (ls: seq<Lexeme>)
    requires Tokens(sql, base).Ok?
    ensures AllOk(ls) && Spells(sql, ls) && Reads(Tokens(sql, base).value, ls)
    decreases |sql|
  {
    hide NextToken, Spelling, Fits, LexemeOk, Writes, Ends, Tokens, Spells;
    if sql == "" {
      NothingIsSpelled(base);
      ls := [];
    } else {
      TokensStep(sql, base);
      if IsSpace(sql[0]) {
        ls := ReadIsSpelled(sql[1..], base + 1);
        BlankBefore(sql, ls);
      } else {
        TokenIsWritten(sql, base);
        var t := NextToken(sql, base).value;
        var rest := ReadIsSpelled(sql[t.1..], base + t.1);
        ls := [LexemeOf(t.0)] + rest;
        assert ls[1..] == rest;
        SpellsStep(sql, ls);
        ReadOneMore(t.0, Tokens(sql[t.1..], base + t.1).value, ls);
      }
    }
  }

  lemma NothingIsSpelled(base: nat)
    ensures Spells("", []) && Tokens("", base).Ok? && Reads(Tokens("", base).value, [])
  {
  }

  lemma BlankBefore(sql: string, ls: seq<Lexeme>)
    requires sql != "" && IsSpace(sql[0])
    ensures Spells(sql, ls) <==> Spells(sql[1..], ls)
  {
  }

  /** The tokenizer takes exactly the texts that spell lexemes, and reads them as these. */
  lemma TokenizesExactly(sql: string, ls: seq<Lexeme>)
    requires AllOk(ls)
    ensures Spells(sql, ls) <==> Tokens(sql, 0).Ok? && Reads(Tokens(sql, 0).value, ls)
  {
    hide Tokens, Spells, Fits;
    if Spells(sql, ls) {
      SpelledIsRead(sql, ls, 0);
    } else if Tokens(sql, 0).Ok? && Reads(Tokens(sql, 0).value, ls) {
      var others := ReadIsSpelled(sql, 0);
      SameLexemes(Tokens(sql, 0).value, ls, others);
    }
  }

  lemma SameLexemes(toks: seq<Token>, a: seq<Lexeme>, b: seq<Lexeme>)
    requires AllOk(a) && AllOk(b) && Reads(toks, a) && Reads(toks, b)
    ensures a == b
  {
    hide IsName, IsNumber, Lower;
    forall i | 0 <= i < |a| ensures a[i] == b[i] {
      assert Fits(toks[i], a[i]) && Fits(toks[i], b[i]) && LexemeOk(a[i]) && LexemeOk(b[i]);
    }
  }

  /* ---- where a text goes wrong ---- */

  /** Some lexeme is written at the front of s and ends there. */
  ghost predicate Begins(s: string)
  {
    exists l :: LexemeOk(l) && 0 < |Spelling(l)| <= |s| && Writes(s[..|Spelling(l)|], l) && Ends(l, s[|Spelling(l)|..])
  }

  /** At k the text begins no lexeme, and what is before it spells ls. */
  ghost predicate GoesWrong(sql: string, k: nat, ls: seq<Lexeme>)
  {
    k < |sql| && !IsSpace(sql[k]) && !Begins(sql[k..]) && AllOk(ls) && Spells(sql[..k], ls)
  }

  lemma WrongBehindBlank(sql: string, k: nat, ls: seq<Lexeme>)
    requires sql != "" && IsSpace(sql[0]) && GoesWrong(sql[1..], k, ls)
    ensures GoesWrong(sql, k + 1, ls)
  {
    hide Begins, Spells, LexemeOk;
    assert sql[1..][k..] == sql[k + 1..] && sql[..k + 1][1..] == sql[1..][..k];
    BlankBefore(sql[..k + 1], ls);
  }

  lemma WrongBehindToken(sql: string, t: Token, n: nat, k: nat, ls: seq<Lexeme>)
    requires sql != "" && !IsSpace(sql[0]) && ReadFrom(sql, t, n) && n <= |sql| && GoesWrong(sql[n..], k, ls)
    ensures GoesWrong(sql, n + k, [LexemeOf(t)] + ls)
  {
    hide Begins, Spells, LexemeOk, Spelling, Writes, Ends, Fits;
    var more, s := [LexemeOf(t)] + ls, sql[..n + k];
    assert sql[n..][k..] == sql[n + k..] && more[1..] == ls;
    assert s[..n] == sql[..n] && s[n..] == sql[n..][..k];
    EndsSooner(LexemeOf(t), sql[n..], k);
    SpellsStep(s, more);
  }

  lemma EndsSooner(l: Lexeme, rest: string, k: nat)
    requires Ends(l, rest) && k <= |rest|
    ensures Ends(l, rest[..k])
  {
  }

  lemma WrongHere(sql: string, base: nat)
    requires sql != "" && !IsSpace(sql[0]) && NextToken(sql, base).Error?
    ensures Tokens(sql, base) == Error(base) && GoesWrong(sql, 0, [])
  {
    hide StringBody, NumberSize, IdentSpan, Begins;
    assert sql[..0] == "" && sql[0..] == sql;
    NothingBegins(sql, base);
  }

  lemma NothingBegins(sql: string, base: nat)
    requires sql != "" && !IsSpace(sql[0]) && NextToken(sql, base).Error?
    ensures !Begins(sql)
  {
    hide NextToken, Spelling, Fits, LexemeOk, Writes, Ends;
    forall l | LexemeOk(l) && 0 < |Spelling(l)| <= |sql| && Writes(sql[..|Spelling(l)|], l) &&
               Ends(l, sql[|Spelling(l)|..])
      ensures false
    {
      LexemeIsRead(sql, l, base);
    }
  }

  /** A text is refused at its first character, blanks aside, that begins no lexeme: what is before it spells
      lexemes. */
  lemma {:induction false} RefusedWhereNothingBegins(sql: string, base: nat) returns (ls: seq<Lexeme>)
    requires Tokens(sql, base).Error?
    ensures Tokens(sql, base).at >= base && GoesWrong(sql, Tokens(sql, base).at - base, ls)
    decreases |sql|
  {
    hide NextToken, Tokens, GoesWrong, ReadFrom;
    if sql == "" {
      NothingIsSpelled(base);
    } else {
      TokensStep(sql, base);
      if IsSpace(sql[0]) {
        ls := RefusedWhereNothingBegins(sql[1..], base + 1);
        WrongBehindBlank(sql, Tokens(sql, base).at - base - 1, ls);
      } else if NextToken(sql, base).Error? {
        WrongHere(sql, base);
        ls := [];
      } else {
        TokenIsWritten(sql, base);
        var t := NextToken(sql, base).value;
        var rest := RefusedWhereNothingBegins(sql[t.1..], base + t.1);
        WrongBehindToken(sql, t.0, t.1, Tokens(sql, base).at - base - t.1, rest);
        ls := [LexemeOf(t.0)] + rest;
      }
    }
  }
}
