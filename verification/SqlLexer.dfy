/** ChronoSQL's tokenizer. */
module SqlLexer {
  import opened Text

  /** What `std::invalid_argument` carries: the offset of the parse error. */
  datatype Result<+T> = Ok(value: T) | Error(at: nat) {
    predicate IsFailure() { Error? }
    function PropagateFailure<U>(): Result<U>
      requires Error?
    {
      Error(at)
    }
    function Extract(): T
      requires Ok?
    {
      value
    }
  }

  datatype Kind = Ident | StringLit | Integer | Decimal | LParen | RParen | Comma | Semicolon | Equals | Star | End

  datatype Token = Token(kind: Kind, text: string, original: string, pos: nat)

  /* ---- characters, in the C locale ---- */

  predicate IsSpace(c: char) { c == ' ' || 9 as char <= c <= 13 as char }
  predicate IsUpper(c: char) { 'A' <= c <= 'Z' }
  predicate IsLower(c: char) { 'a' <= c <= 'z' }
  predicate IsAlpha(c: char) { IsUpper(c) || IsLower(c) }
  predicate IsIdentStart(c: char) { IsAlpha(c) || c == '_' }
  predicate IsIdentChar(c: char) { IsIdentStart(c) || IsDigit(c) }

  function LowerChar(c: char): char { if IsUpper(c) then (c as int + 32) as char else c }
  function UpperChar(c: char): char { if IsLower(c) then (c as int - 32) as char else c }

  function Lower(s: string): (r: string)
    ensures |r| == |s| && forall i | 0 <= i < |s| :: r[i] == LowerChar(s[i])
  {
    seq(|s|, i requires 0 <= i < |s| => LowerChar(s[i]))
  }

  function Upper(s: string): (r: string)
    ensures |r| == |s| && forall i | 0 <= i < |s| :: r[i] == UpperChar(s[i])
  {
    seq(|s|, i requires 0 <= i < |s| => UpperChar(s[i]))
  }

  function Punctuation(c: char): Option<Kind>
  {
    match c
    case ',' => Some(Comma)
    case '(' => Some(LParen)
    case ')' => Some(RParen)
    case ';' => Some(Semicolon)
    case '=' => Some(Equals)
    case '*' => Some(Star)
    case _ => None
  }

  /* ---- what the text from some position on means ---- */

  /** A string literal's text and length, its opening quote already read. None when unterminated. */
  function StringBody(s: string): (r: Option<(string, nat)>)
    ensures r.Some? ==> 0 < r.value.1 <= |s|
    decreases |s|
  {
    if s == "" then None
    else if s[0] == '\'' then
      if |s| > 1 && s[1] == '\'' then
        var rest := StringBody(s[2..]);
        if rest.None? then None else Some(("'" + rest.value.0, rest.value.1 + 2))
      else Some(("", 1))
    else
      var rest := StringBody(s[1..]);
      if rest.None? then None else Some(([s[0]] + rest.value.0, rest.value.1 + 1))
  }

  /** How far digits, with at most one dot among them, reach, and whether a dot was seen. */
  function NumberSpan(s: string, seenDot: bool): (r: (nat, bool))
    ensures r.0 <= |s|
    decreases |s|
  {
    if s != "" && IsDigit(s[0]) then
      var r := NumberSpan(s[1..], seenDot);
      (1 + r.0, r.1)
    else if s != "" && s[0] == '.' && !seenDot then
      var r := NumberSpan(s[1..], true);
      (1 + r.0, r.1)
    else (0, seenDot)
  }

  function IdentSpan(s: string): (k: nat)
    ensures k <= |s|
  {
    if s == "" || !IsIdentChar(s[0]) then 0 else 1 + IdentSpan(s[1..])
  }

  predicate IsSign(c: char) { c == '-' || c == '+' }

  /** The length of the number s starts with, sign included, and whether it has a dot. */
  function NumberSize(s: string): (r: (nat, bool))
    requires s != ""
    ensures r.0 <= |s|
  {
    if IsSign(s[0]) then
      var r := NumberSpan(s[1..], false);
      (1 + r.0, r.1)
    else NumberSpan(s, false)
  }

  predicate StartsNumber(s: string)
    requires s != ""
  {
    IsDigit(s[0]) || (IsSign(s[0]) && |s| > 1 && IsDigit(s[1]))
  }

  /** The token at the start of s (which is not blank there), and its length. */
  function NextToken(s: string, base: nat): (r: Result<(Token, nat)>)
    requires s != "" && !IsSpace(s[0])
    ensures r.Ok? ==> 0 < r.value.1 <= |s| && r.value.0.kind != End
  {
    var c := s[0];
    if Punctuation(c).Some? then Ok((Token(Punctuation(c).value, [c], [c], base), 1))
    else if c == '\'' then
      var body := StringBody(s[1..]);
      if body.None? then Error(base)
      else Ok((Token(StringLit, body.value.0, body.value.0, base), 1 + body.value.1))
    else if StartsNumber(s) then
      var lex := s[..NumberSize(s).0];
      Ok((Token(if NumberSize(s).1 then Decimal else Integer, lex, lex, base), |lex|))
    else if IsIdentStart(c) then
      var original := s[..IdentSpan(s)];
      Ok((Token(Ident, Lower(original), original, base), |original|))
    else Error(base)
  }

  /** The tokens of s, which starts at offset `base` of the statement. */
  function Tokens(s: string, base: nat): (r: Result<seq<Token>>)
    decreases |s|
  {
    if s == "" then Ok([Token(End, "", "", base)])
    else if IsSpace(s[0]) then Tokens(s[1..], base + 1)
    else
      var t :- NextToken(s, base);
      var rest :- Tokens(s[t.1..], base + t.1);
      Ok([t.0] + rest)
  }

  /** The tokens already read, then those still to come. */
  function After(out: seq<Token>, r: Result<seq<Token>>): Result<seq<Token>>
  {
    match r
    case Ok(ts) => Ok(out + ts)
    case Error(at) => Error(at)
  }

  lemma AfterNothing(r: Result<seq<Token>>)
    ensures After([], r) == r
  {
    if r.Ok? { assert [] + r.value == r.value; }
  }

  lemma AfterOne(out: seq<Token>, t: Token, r: Result<seq<Token>>)
    ensures After(out, After([t], r)) == After(out + [t], r)
  {
    if r.Ok? { assert out + ([t] + r.value) == (out + [t]) + r.value; }
  }

  /** The same for a literal's characters. */
  function Joined(out: string, n: nat, r: Option<(string, nat)>): Option<(string, nat)>
  {
    match r
    case Some(b) => Some((out + b.0, n + b.1))
    case None => None
  }

  /** The number's span, one character at a time. */
  lemma SpanAt(s: string, i: nat, seenDot: bool)
    requires i <= |s|
    ensures NumberSpan(s[i..], seenDot) ==
            if i < |s| && (IsDigit(s[i]) || (s[i] == '.' && !seenDot)) then
              var r := NumberSpan(s[i + 1..], seenDot || s[i] == '.'); (1 + r.0, r.1)
            else (0, seenDot)
    ensures IsDigit('.') == false
  {
    if i < |s| { assert s[i..][1..] == s[i + 1..]; }
  }

  lemma SizeAt(s: string, i: nat)
    requires i < |s|
    ensures NumberSize(s[i..]) ==
            if IsSign(s[i]) then
              var r := NumberSpan(s[i + 1..], false); (1 + r.0, r.1)
            else NumberSpan(s[i..], false)
  {
    hide NumberSpan;
    assert s[i..][1..] == s[i + 1..];
  }

  /** The string literal's body, one character at a time. */
  lemma BodyStep(s: string)
    requires s != ""
    ensures s[0] != '\'' ==> StringBody(s) == Joined([s[0]], 1, StringBody(s[1..]))
    ensures s[0] == '\'' ==>
              StringBody(s) == if |s| > 1 && s[1] == '\'' then Joined("'", 2, StringBody(s[2..])) else Some(("", 1))
  {
  }

  lemma CutTwice(s: string, i: nat, k: nat)
    requires i + k <= |s|
    ensures s[i..][k..] == s[i + k..]
  {
  }

  lemma NoBody()
    ensures StringBody("").None?
  {
  }

  lemma JoinedOne(out: string, n: nat, c: char, k: nat, r: Option<(string, nat)>)
    ensures Joined(out, n, Joined([c], k, r)) == Joined(out + [c], n + k, r)
  {
    if r.Some? { assert out + ([c] + r.value.0) == (out + [c]) + r.value.0; }
  }

  /** The tokens, one space or one token at a time. */
  lemma TokensStep(s: string, base: nat)
    requires s != ""
    ensures IsSpace(s[0]) ==> Tokens(s, base) == Tokens(s[1..], base + 1)
    ensures !IsSpace(s[0]) ==>
              Tokens(s, base) ==
              match NextToken(s, base)
              case Error(at) => Error(at)
              case Ok(t) => After([t.0], Tokens(s[t.1..], base + t.1))
  {
    hide NextToken;
  }

  /** One End token, in the last place. */
  ghost predicate Ended(toks: seq<Token>)
  {
    |toks| > 0 && toks[|toks| - 1].kind == End && forall i | 0 <= i < |toks| - 1 :: toks[i].kind != End
  }

  lemma {:induction false} TokensEnd(s: string, base: nat)
    requires Tokens(s, base).Ok?
    ensures Ended(Tokens(s, base).value)
    decreases |s|
  {
    hide NextToken;
    if s != "" {
      if IsSpace(s[0]) {
        TokensEnd(s[1..], base + 1);
      } else {
        var t := NextToken(s, base).value;
        TokensEnd(s[t.1..], base + t.1);
      }
    }
  }

  /* ---- the class ---- */

  class Tokenizer {
    const src: string
    var pos: nat

    constructor (src: string)
      ensures this.src == src && pos == 0
    {
      this.src := src;
      pos := 0;
    }

    method Tokenize() returns (r: Result<seq<Token>>)
      requires pos == 0
      modifies this
      ensures r == Tokens(src, 0)
      ensures r.Ok? ==> Ended(r.value)
    {
      hide NextToken;
      var out := [];
      ghost var all := Tokens(src, 0);
      assert src[0..] == src;
      AfterNothing(all);
      while pos < |src|
        invariant pos <= |src|
        invariant all == After(out, Tokens(src[pos..], pos))
        decreases |src| - pos
      {
        ghost var s := src[pos..];
        if IsSpace(src[pos]) {
          assert s[1..] == src[pos + 1..];
          pos := pos + 1;
          continue;
        }
        var start := pos;
        var t := ReadToken();
        if t.Error? { return Error(t.at); }
        assert s[pos - start..] == src[pos..];
        assert Tokens(s, start) == After([t.value], Tokens(src[pos..], pos));
        AfterOne(out, t.value, Tokens(src[pos..], pos));
        out := out + [t.value];
      }
      assert src[pos..] == "";
      out := out + [Token(End, "", "", pos)];
      r := Ok(out);
      TokensEnd(src, 0);
    }

    method ReadToken() returns (r: Result<Token>)
      requires pos < |src| && !IsSpace(src[pos])
      modifies this
      ensures match NextToken(old(src[pos..]), old(pos))
              case Ok(t) => r == Ok(t.0) && pos == old(pos) + t.1
              case Error(at) => r == Error(at)
    {
      hide StringBody, NumberSpan, IdentSpan;
      var c := src[pos];
      if Punctuation(c).Some? {
        pos := pos + 1;
        return Ok(Token(Punctuation(c).value, [c], [c], pos - 1));
      }
      if c == '\'' {
        r := ReadString();
        return;
      }
      if IsDigit(c) || IsSign(c) {
        if IsSign(c) && (pos + 1 >= |src| || !IsDigit(src[pos + 1])) {
          return Error(pos);
        }
        var t := ReadNumber();
        return Ok(t);
      }
      if IsIdentStart(c) {
        var t := ReadIdent();
        return Ok(t);
      }
      return Error(pos);
    }

    method ReadString() returns (r: Result<Token>)
      requires pos < |src|
      modifies this
      ensures match StringBody(old(src[pos + 1..]))
              case Some(b) => r == Ok(Token(StringLit, b.0, b.0, old(pos))) && pos == old(pos) + 1 + b.1
              case None => r == Error(old(pos))
    {
      hide StringBody;
      var start := pos;
      ghost var all := StringBody(src[pos + 1..]);
      pos := pos + 1;
      var out := "";
      assert all == Joined("", 0, all) by { if all.Some? { assert "" + all.value.0 == all.value.0; } }
      while pos < |src|
        invariant start < pos <= |src|
        invariant all == Joined(out, pos - start - 1, StringBody(src[pos..]))
        decreases |src| - pos
      {
        var c := src[pos];
        ghost var s := src[pos..];
        if c == '\'' {
          if pos + 1 < |src| && src[pos + 1] == '\'' {
            CutTwice(src, pos, 2);
            BodyStep(s);
            JoinedOne(out, pos - start - 1, '\'', 2, StringBody(src[pos + 2..]));
            out := out + "'";
            pos := pos + 2;
            continue;
          }
          BodyStep(s);
          pos := pos + 1;
          assert out + "" == out;
          return Ok(Token(StringLit, out, out, start));
        }
        CutTwice(src, pos, 1);
        BodyStep(s);
        JoinedOne(out, pos - start - 1, c, 1, StringBody(src[pos + 1..]));
        out := out + [c];
        pos := pos + 1;
      }
      assert src[pos..] == "";
      NoBody();
      return Error(start);
    }

    method ReadNumber() returns (t: Token)
      requires pos < |src|
      modifies this
      ensures var size := NumberSize(old(src[pos..]));
              var lex := old(src[pos..])[..size.0];
              t == Token(if size.1 then Decimal else Integer, lex, lex, old(pos)) && pos == old(pos) + |lex|
    {
      var start := pos;
      hide NumberSpan, NumberSize, IsDigit, IsSign;
      ghost var s := src[start..];
      SizeAt(src, start);
      if IsSign(src[pos]) { pos := pos + 1; }
      var seenDot := false;
      while pos < |src|
        invariant start <= pos <= |src|
        invariant NumberSize(s).0 == pos - start + NumberSpan(src[pos..], seenDot).0
        invariant NumberSize(s).1 == NumberSpan(src[pos..], seenDot).1
        decreases |src| - pos
      {
        var c := src[pos];
        SpanAt(src, pos, seenDot);
        if IsDigit(c) {
          pos := pos + 1;
          continue;
        }
        if c == '.' && !seenDot {
          seenDot := true;
          pos := pos + 1;
          continue;
        }
        break;
      }
      SpanAt(src, pos, seenDot);
      var lex := src[start..pos];
      assert lex == s[..pos - start];
      t := Token(if seenDot then Decimal else Integer, lex, lex, start);
    }

    method ReadIdent() returns (t: Token)
      requires pos < |src|
      modifies this
      ensures var original := old(src[pos..])[..IdentSpan(old(src[pos..]))];
              t == Token(Ident, Lower(original), original, old(pos)) && pos == old(pos) + |original|
    {
      var start := pos;
      ghost var s := src[start..];
      while pos < |src|
        invariant start <= pos <= |src|
        invariant IdentSpan(s) == pos - start + IdentSpan(src[pos..])
        decreases |src| - pos
      {
        assert src[pos..][1..] == src[pos + 1..];
        if IsIdentChar(src[pos]) {
          pos := pos + 1;
          continue;
        }
        break;
      }
      var original := src[start..pos];
      assert original == s[..pos - start];
      t := Token(Ident, Lower(original), original, start);
    }
  }
}
