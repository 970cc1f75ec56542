/** Letter case outside string literals does not matter to ChronoSQL. */
module SqlCase {
  import opened Text
  import opened SqlLexer
  import opened SqlParser

  /** The statement with every letter outside its string literals lower-cased. A doubled quote
      leaves the literal and enters it again, so a quote always changes sides. */
  function Fold(s: string, inside: bool): (r: string)
    ensures |r| == |s|
    decreases |s|
  {
    if s == "" then ""
    else [if inside then s[0] else LowerChar(s[0])] + Fold(s[1..], if s[0] == '\'' then !inside else inside)
  }

  /** The two statements differ at most in letter case outside string literals. */
  predicate SameButCase(a: string, b: string) { Fold(a, false) == Fold(b, false) }

  /** A token of the folded statement: its spelling is its text. */
  function Folded(t: Token): Token { if t.kind == Ident then t.(original := t.text) else t }

  function FoldedAll(ts: seq<Token>): (r: seq<Token>)
    ensures |r| == |ts| && forall i | 0 <= i < |ts| :: r[i] == Folded(ts[i])
  {
    seq(|ts|, i requires 0 <= i < |ts| => Folded(ts[i]))
  }

  /* ---- folding and the tokenizer ---- */

  lemma {:induction false} FoldSkip(s: string, k: nat)
    requires k <= |s| && '\'' !in s[..k]
    ensures Fold(s, false)[..k] == Lower(s[..k]) && Fold(s, false)[k..] == Fold(s[k..], false)
    decreases k
  {
    if k > 0 {
      assert s[..k][0] == s[0];
      assert s[..k] == [s[0]] + s[1..][..k - 1];
      FoldSkip(s[1..], k - 1);
      assert s[1..][k - 1..] == s[k..];
      assert Fold(s, false)[k..] == Fold(s[1..], false)[k - 1..];
      assert Fold(s, false)[..k] == [LowerChar(s[0])] + Fold(s[1..], false)[..k - 1];
    } else {
      assert s[0..] == s;
    }
  }

  lemma {:induction false} StringBodyFold(s: string)
    ensures StringBody(Fold(s, true)) == StringBody(s)
    ensures StringBody(s).Some? ==>
              var k := StringBody(s).value.1; Fold(s, true)[k..] == Fold(s[k..], false)
    decreases |s|
  {
    var f := Fold(s, true);
    if s != "" {
      if s[0] == '\'' && |s| > 1 && s[1] == '\'' {
        assert f[1] == Fold(s[1..], false)[0];
        assert s[1..][1..] == s[2..];
        assert f[2..] == Fold(s[1..], false)[1..] == Fold(s[2..], true);
        StringBodyFold(s[2..]);
        var r := StringBody(s[2..]);
        if r.Some? { SliceSlice(f, 2, r.value.1); SliceSlice(s, 2, r.value.1); }
      } else if s[0] == '\'' {
        assert f[1..] == Fold(s[1..], false);
        if |s| > 1 { assert f[1] == LowerChar(s[1]); }
      } else {
        assert f[1..] == Fold(s[1..], true);
        StringBodyFold(s[1..]);
        var r := StringBody(s[1..]);
        if r.Some? { SliceSlice(f, 1, r.value.1); SliceSlice(s, 1, r.value.1); }
      }
    }
  }

  lemma SliceSlice(s: string, a: nat, b: nat)
    requires a + b <= |s|
    ensures s[a..][b..] == s[a + b..]
  {
  }

  lemma {:induction false} IdentSpanFold(s: string)
    ensures IdentSpan(Fold(s, false)) == IdentSpan(s) && '\'' !in s[..IdentSpan(s)]
  {
    if s != "" && IsIdentChar(s[0]) {
      IdentSpanFold(s[1..]);
      assert Fold(s, false)[1..] == Fold(s[1..], false);
      assert s[..IdentSpan(s)] == [s[0]] + s[1..][..IdentSpan(s[1..])];
    }
  }

  /** Nothing in a number has a case. */
  predicate Caseless(s: string) { forall i | 0 <= i < |s| :: !IsAlpha(s[i]) && s[i] != '\'' }

  lemma {:induction false} NumberSpanFold(s: string, seenDot: bool)
    ensures NumberSpan(Fold(s, false), seenDot) == NumberSpan(s, seenDot)
    ensures Caseless(s[..NumberSpan(s, seenDot).0])
    decreases |s|
  {
    if s != "" && (IsDigit(s[0]) || (s[0] == '.' && !seenDot)) {
      var dot := seenDot || s[0] == '.';
      NumberSpanFold(s[1..], dot);
      assert Fold(s, false)[1..] == Fold(s[1..], false);
      CaselessFront(s, NumberSpan(s[1..], dot).0);
    }
  }

  lemma CaselessFront(s: string, k: nat)
    requires s != "" && k < |s| && !IsAlpha(s[0]) && s[0] != '\'' && Caseless(s[1..][..k])
    ensures Caseless(s[..k + 1])
  {
    assert s[..k + 1] == [s[0]] + s[1..][..k];
  }

  lemma NumberSizeFold(s: string)
    requires s != "" && (IsDigit(s[0]) || IsSign(s[0]))
    ensures NumberSize(Fold(s, false)) == NumberSize(s)
    ensures Caseless(s[..NumberSize(s).0])
  {
    hide NumberSpan, Fold;
    FoldFirst(s);
    if IsSign(s[0]) {
      NumberSpanFold(s[1..], false);
      CaselessFront(s, NumberSpan(s[1..], false).0);
    } else {
      NumberSpanFold(s, false);
    }
  }

  lemma CaselessLower(s: string)
    requires Caseless(s)
    ensures Lower(s) == s && '\'' !in s
  {
  }

  lemma LowerTwice(s: string)
    ensures Lower(Lower(s)) == Lower(s)
  {
  }

  function FoldedToken(r: Result<(Token, nat)>): Result<(Token, nat)>
  {
    if r.Error? then r else Ok((Folded(r.value.0), r.value.1))
  }

  lemma FoldFirst(s: string)
    requires s != ""
    ensures Fold(s, false)[0] == LowerChar(s[0])
    ensures s[0] != '\'' ==> Fold(s, false)[1..] == Fold(s[1..], false)
    ensures s[0] == '\'' ==> Fold(s, false)[1..] == Fold(s[1..], true)
    ensures s[0] != '\'' && |s| > 1 ==> Fold(s, false)[1] == LowerChar(s[1])
  {
    if s[0] != '\'' && |s| > 1 { assert Fold(s, false)[1] == Fold(s[1..], false)[0]; }
  }

  /** The token at the front folds with the text, and what follows it is folded from outside. */
  ghost predicate TokenFolds(s: string, base: nat)
    requires s != "" && !IsSpace(s[0])
  {
    var f := Fold(s, false);
    !IsSpace(f[0]) && NextToken(f, base) == FoldedToken(NextToken(s, base)) &&
    (NextToken(s, base).Ok? ==> var k := NextToken(s, base).value.1; f[k..] == Fold(s[k..], false))
  }

  lemma StringTokenFolds(s: string, base: nat)
    requires s != "" && s[0] == '\''
    ensures TokenFolds(s, base)
  {
    hide StringBody, Fold;
    FoldFirst(s);
    StringBodyFold(s[1..]);
    var b := StringBody(s[1..]);
    if b.Some? { SliceSlice(Fold(s, false), 1, b.value.1); SliceSlice(s, 1, b.value.1); }
  }

  lemma NumberTokenFolds(s: string, base: nat)
    requires s != "" && StartsNumber(s)
    ensures TokenFolds(s, base)
  {
    hide NumberSize, Fold;
    FoldFirst(s);
    NumberSizeFold(s);
    var k := NumberSize(s).0;
    CaselessLower(s[..k]);
    FoldSkip(s, k);
  }

  lemma IdentTokenFolds(s: string, base: nat)
    requires s != "" && IsIdentStart(s[0])
    ensures TokenFolds(s, base)
  {
    hide IdentSpan, Fold, StringBody, NumberSize;
    FoldFirst(s);
    IdentSpanFold(s);
    FoldSkip(s, IdentSpan(s));
    LowerTwice(s[..IdentSpan(s)]);
  }

  lemma NextTokenFold(s: string, base: nat)
    requires s != "" && !IsSpace(s[0])
    ensures TokenFolds(s, base)
  {
    if s[0] == '\'' {
      StringTokenFolds(s, base);
    } else if StartsNumber(s) {
      NumberTokenFolds(s, base);
    } else if IsIdentStart(s[0]) {
      IdentTokenFolds(s, base);
    } else {
      hide Fold, StringBody, NumberSize, IdentSpan;
      FoldFirst(s);
    }
  }

  function FoldedTokens(r: Result<seq<Token>>): Result<seq<Token>>
  {
    if r.Error? then r else Ok(FoldedAll(r.value))
  }

  lemma FoldedAfter(t: Token, r: Result<seq<Token>>)
    ensures FoldedTokens(After([t], r)) == After([Folded(t)], FoldedTokens(r))
  {
    hide Folded;
    if r.Ok? { assert FoldedAll([t] + r.value) == [Folded(t)] + FoldedAll(r.value); }
  }

  lemma EndFolded(base: nat)
    ensures Tokens("", base) == FoldedTokens(Tokens("", base))
  {
    var end := Token(End, "", "", base);
    assert FoldedAll([end]) == [end];
  }

  lemma {:induction false} TokensFold(s: string, base: nat)
    ensures Tokens(Fold(s, false), base) == FoldedTokens(Tokens(s, base))
    decreases |s|
  {
    hide NextToken, Fold, Tokens, FoldedTokens, Folded, After;
    var f := Fold(s, false);
    if s == "" {
      EndFolded(base);
      assert f == "";
    } else {
      TokensStep(s, base);
      TokensStep(f, base);
      FoldFirst(s);
      if IsSpace(s[0]) {
        TokensFold(s[1..], base + 1);
      } else {
        NextTokenFold(s, base);
        var t := NextToken(s, base);
        if t.Ok? {
          TokensFold(s[t.value.1..], base + t.value.1);
          FoldedAfter(t.value.0, Tokens(s[t.value.1..], base + t.value.1));
        } else {
          ErrorFolded(t.at);
        }
      }
    }
  }

  lemma ErrorFolded(at: nat)
    ensures FoldedTokens(Error(at)) == Error(at)
  {
  }

  /* ---- folding and the parser ---- */

  /** Tokens the parser cannot tell apart. */
  ghost predicate Alike(a: seq<Token>, b: seq<Token>)
  {
    |a| == |b| &&
    forall i | 0 <= i < |a| ::
      a[i].kind == b[i].kind && a[i].text == b[i].text && a[i].pos == b[i].pos &&
      ColumnTypeFromString(a[i].original) == ColumnTypeFromString(b[i].original)
  }

  lemma UpperOfLower(s: string)
    ensures Upper(Lower(s)) == Upper(s)
  {
  }

  lemma IdentTextIsLower(s: string, base: nat)
    requires s != "" && !IsSpace(s[0]) && NextToken(s, base).Ok?
    ensures var t := NextToken(s, base).value.0; t.kind == Ident ==> t.text == Lower(t.original)
  {
    hide StringBody, NumberSize, IdentSpan;
  }

  /** Every identifier token's text is its lower-cased spelling. */
  lemma {:induction false} TextIsLower(s: string, base: nat)
    requires Tokens(s, base).Ok?
    ensures forall i | 0 <= i < |Tokens(s, base).value| && Tokens(s, base).value[i].kind == Ident ::
              Tokens(s, base).value[i].text == Lower(Tokens(s, base).value[i].original)
    decreases |s|
  {
    hide NextToken;
    if s != "" {
      if IsSpace(s[0]) {
        TextIsLower(s[1..], base + 1);
      } else {
        var t := NextToken(s, base).value;
        IdentTextIsLower(s, base);
        TextIsLower(s[t.1..], base + t.1);
      }
    }
  }

  lemma FoldedIsAlike(toks: seq<Token>)
    requires forall i | 0 <= i < |toks| && toks[i].kind == Ident :: toks[i].text == Lower(toks[i].original)
    ensures Alike(toks, FoldedAll(toks))
  {
    hide ColumnTypeFromString;
    forall i | 0 <= i < |toks|
      ensures ColumnTypeFromString(Folded(toks[i]).original) == ColumnTypeFromString(toks[i].original)
    {
      SameType(toks[i].original, Folded(toks[i]).original);
    }
  }

  lemma SameType(a: string, b: string)
    requires b == a || b == Lower(a)
    ensures ColumnTypeFromString(a) == ColumnTypeFromString(b)
  {
    UpperOfLower(a);
  }

  lemma {:induction false} NamesAlike(a: seq<Token>, b: seq<Token>, i: nat)
    requires Alike(a, b) && Ended(a) && Ended(b) && i < |a|
    ensures ParseNames(a, i) == ParseNames(b, i)
    decreases |a| - i
  {
    if a[i].kind == Ident && a[i + 1].kind == Comma { NamesAlike(a, b, i + 2); }
  }

  lemma OneLiteralAlike(a: seq<Token>, b: seq<Token>, i: nat)
    requires Alike(a, b) && i < |a|
    ensures ParseLiteral(a, i) == ParseLiteral(b, i)
  {
  }

  lemma {:induction false} LiteralsAlike(a: seq<Token>, b: seq<Token>, i: nat)
    requires Alike(a, b) && Ended(a) && Ended(b) && i < |a|
    ensures ParseLiterals(a, i) == ParseLiterals(b, i)
    decreases |a| - i
  {
    OneLiteralAlike(a, b, i);
    hide ParseLiteral, ColumnTypeFromString;
    if ParseLiteral(a, i).Good? && a[i + 1].kind == Comma { LiteralsAlike(a, b, i + 2); }
  }

  lemma ColumnAlike(a: seq<Token>, b: seq<Token>, i: nat)
    requires Alike(a, b) && Ended(a) && Ended(b) && i < |a|
    ensures ParseColumn(a, i) == ParseColumn(b, i)
  {
    hide ColumnTypeFromString;
  }

  lemma {:induction false} ColumnsAlike(a: seq<Token>, b: seq<Token>, i: nat)
    requires Alike(a, b) && Ended(a) && Ended(b) && i < |a|
    ensures ParseColumns(a, i) == ParseColumns(b, i)
    decreases |a| - i
  {
    hide ParseColumn, ColumnTypeFromString;
    ColumnAlike(a, b, i);
    var first := ParseColumn(a, i);
    if first.Good? && a[first.next].kind == Comma { ColumnsAlike(a, b, first.next + 1); }
  }

  lemma InsertNamesAlike(a: seq<Token>, b: seq<Token>, i: nat)
    requires Alike(a, b) && Ended(a) && Ended(b) && i < |a|
    ensures ParseInsertNames(a, i) == ParseInsertNames(b, i)
  {
    hide ParseNames, ColumnTypeFromString;
    if a[i].kind == LParen { NamesAlike(a, b, i + 1); }
  }

  lemma InsertValuesAlike(a: seq<Token>, b: seq<Token>, i: nat)
    requires Alike(a, b) && Ended(a) && Ended(b) && i < |a|
    ensures ParseInsertValues(a, i) == ParseInsertValues(b, i)
  {
    hide ParseLiterals, ColumnTypeFromString;
    if i + 2 < |a| { LiteralsAlike(a, b, i + 2); }
  }

  lemma InsertAlike(a: seq<Token>, b: seq<Token>, i: nat)
    requires Alike(a, b) && Ended(a) && Ended(b) && i < |a|
    ensures ParseInsert(a, i) == ParseInsert(b, i)
  {
    hide ParseInsertNames, ParseInsertValues, ColumnTypeFromString;
    if i + 2 < |a| {
      InsertNamesAlike(a, b, i + 2);
      var names := ParseInsertNames(a, i + 2);
      if names.Good? { InsertValuesAlike(a, b, names.next); }
    }
  }

  lemma SelectAlike(a: seq<Token>, b: seq<Token>, i: nat)
    requires Alike(a, b) && Ended(a) && Ended(b) && i < |a|
    ensures ParseSelect(a, i) == ParseSelect(b, i)
  {
    hide ParseNames, ColumnTypeFromString, Stoull, ParseWhere;
    NamesAlike(a, b, i);
    forall j | 0 <= j < |a| ensures ParseWhere(a, j) == ParseWhere(b, j) { WhereAlike(a, b, j); }
  }

  lemma WhereAlike(a: seq<Token>, b: seq<Token>, i: nat)
    requires Alike(a, b) && Ended(a) && Ended(b) && i < |a|
    ensures ParseWhere(a, i) == ParseWhere(b, i)
  {
    hide ColumnTypeFromString, Stoull;
  }

  lemma CreateAlike(a: seq<Token>, b: seq<Token>, i: nat)
    requires Alike(a, b) && Ended(a) && Ended(b) && i < |a|
    ensures ParseCreate(a, i) == ParseCreate(b, i)
  {
    hide ParseColumns, ColumnTypeFromString;
    if i + 3 < |a| { ColumnsAlike(a, b, i + 3); }
  }

  lemma DropAlike(a: seq<Token>, b: seq<Token>, i: nat)
    requires Alike(a, b) && Ended(a) && Ended(b) && i < |a|
    ensures ParseDrop(a, i) == ParseDrop(b, i)
  {
    hide ColumnTypeFromString;
  }

  lemma BodyAlike(a: seq<Token>, b: seq<Token>)
    requires Alike(a, b) && Ended(a) && Ended(b)
    ensures ParseBody(a) == ParseBody(b)
  {
    hide ParseCreate, ParseInsert, ParseSelect, ParseDrop, ColumnTypeFromString, IEquals;
    if |a| > 1 {
      CreateAlike(a, b, 1);
      DropAlike(a, b, 1);
      InsertAlike(a, b, 1);
      SelectAlike(a, b, 1);
    }
  }

  lemma ParseAlike(a: seq<Token>, b: seq<Token>)
    requires Alike(a, b) && Ended(a) && Ended(b)
    ensures ParseTokens(a) == ParseTokens(b)
  {
    hide ParseBody, ColumnTypeFromString;
    BodyAlike(a, b);
  }

  lemma ParseFold(s: string)
    ensures ParseStatement(Fold(s, false)) == ParseStatement(s)
  {
    hide ParseTokens, Tokens;
    TokensFold(s, 0);
    var toks := Tokens(s, 0);
    if toks.Ok? {
      TokensEnd(s, 0);
      TokensEnd(Fold(s, false), 0);
      TextIsLower(s, 0);
      FoldedIsAlike(toks.value);
      ParseAlike(toks.value, FoldedAll(toks.value));
    }
  }

  /** Statements that differ only in case outside literals parse to the same tree, resolved column
      types included, or fail at the same offset. */
  lemma CaseDoesNotMatter(a: string, b: string)
    requires SameButCase(a, b)
    ensures ParseStatement(a) == ParseStatement(b)
  {
    hide ParseStatement;
    ParseFold(a);
    ParseFold(b);
  }
}
