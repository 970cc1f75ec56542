/** ChronoSQL's grammar, said once without the parser, and that the parser takes exactly its statements. */
module SqlGrammar {
  import opened Text
  import opened SqlLexer
  import opened SqlLexemes
  import opened SqlParser

  /* ---- the grammar ---- */

  predicate Has(ls: seq<Lexeme>, i: nat, l: Lexeme) { i < |ls| && ls[i] == l }

  /** name, name, ..., name */
  predicate NamesAt(ls: seq<Lexeme>, i: nat, names: seq<string>)
    decreases |names|
  {
    names != [] && Has(ls, i, Word(names[0])) &&
    (|names| > 1 ==> Has(ls, i + 1, Mark(',')) && NamesAt(ls, i + 2, names[1..]))
  }

  /** The word null, or a text or a number written out. */
  predicate ValueAt(ls: seq<Lexeme>, i: nat, v: Literal)
  {
    i < |ls| &&
    match ls[i]
    case Word(w) => w == "null" && v == Literal("", true)
    case Quoted(text) => v == Literal(text, false)
    case Bare(number) => v == Literal(number, false)
    case Mark(_) => false
  }

  predicate ValuesAt(ls: seq<Lexeme>, i: nat, vs: seq<Literal>)
    decreases |vs|
  {
    vs != [] && ValueAt(ls, i, vs[0]) &&
    (|vs| > 1 ==> Has(ls, i + 1, Mark(',')) && ValuesAt(ls, i + 2, vs[1..]))
  }

  function TypeNames(t: ColumnType): set<string>
  {
    match t
    case INT => {"int", "integer", "bigint"}
    case DOUBLE => {"double", "float", "real"}
    case STRING => {"string", "text", "varchar", "char"}
    case BOOL => {"bool", "boolean"}
  }

  predicate TypeAt(ls: seq<Lexeme>, i: nat, t: ColumnType)
  {
    i < |ls| && ls[i].Word? && ls[i].word in TypeNames(t)
  }

  predicate WholeNumberAt(ls: seq<Lexeme>, i: nat) { i < |ls| && ls[i].Bare? && '.' !in ls[i].number }

  /** A name; a name and a type; or a name, a type and a length in parentheses. */
  predicate ColumnAt(ls: seq<Lexeme>, i: nat, j: nat, c: Column)
  {
    Has(ls, i, Word(c.name)) &&
    if j == i + 1 then c.kind == STRING
    else
      TypeAt(ls, i + 1, c.kind) &&
      (j == i + 2 ||
       (j == i + 5 && Has(ls, i + 2, Mark('(')) && WholeNumberAt(ls, i + 3) && Has(ls, i + 4, Mark(')'))))
  }

  ghost predicate ColumnsAt(ls: seq<Lexeme>, i: nat, j: nat, cs: seq<Column>)
    decreases |cs|
  {
    cs != [] &&
    if |cs| == 1 then ColumnAt(ls, i, j, cs[0])
    else exists k: nat :: ColumnAt(ls, i, k, cs[0]) && Has(ls, k, Mark(',')) && ColumnsAt(ls, k + 1, j, cs[1..])
  }

  /** A whole number that fits in 64 bits; one with a minus stands for what is left to 2^64. */
  predicate BoundAt(ls: seq<Lexeme>, i: nat, n: uint64)
  {
    WholeNumberAt(ls, i) && IsNumber(ls[i].number) &&
    var d := Unsigned(ls[i].number);
    AllDigits(d) && ValueOf(d) <= UINT64_MAX &&
    if ls[i].number[0] == '-' then n + ValueOf(d) in {0, UINT64_MAX + 1} else n == ValueOf(d)
  }

  predicate WhereAt(ls: seq<Lexeme>, i: nat, n: nat, w: Where)
  {
    match w
    case Everything => n == i
    case Equal(column, value) =>
      n == i + 4 && Has(ls, i, Word("where")) && Has(ls, i + 1, Word(column)) && Has(ls, i + 2, Mark('=')) &&
      ValueAt(ls, i + 3, value)
    case TsBetween(lo, hi) =>
      n == i + 6 && Has(ls, i, Word("where")) && Has(ls, i + 1, Word("__ts")) && Has(ls, i + 2, Word("between")) &&
      BoundAt(ls, i + 3, lo) && Has(ls, i + 4, Word("and")) && BoundAt(ls, i + 5, hi)
  }

  predicate InsertAt(ls: seq<Lexeme>, n: nat, table: string, names: seq<string>, values: seq<Literal>)
  {
    var k := if names == [] then 3 else 4 + 2 * |names|;
    Has(ls, 1, Word("into")) && Has(ls, 2, Word(table)) &&
    (names != [] ==>
       Has(ls, 3, Mark('(')) && NamesAt(ls, 4, names) && Has(ls, k - 1, Mark(')')) && |names| == |values|) &&
    Has(ls, k, Word("values")) && Has(ls, k + 1, Mark('(')) && ValuesAt(ls, k + 2, values) &&
    n == k + 2 + 2 * |values| && Has(ls, n - 1, Mark(')'))
  }

  predicate SelectAt(ls: seq<Lexeme>, n: nat, table: string, names: seq<string>, w: Where)
  {
    var k := if names == [] then 2 else 2 * |names|;
    (if names == [] then Has(ls, 1, Mark('*')) else NamesAt(ls, 1, names)) &&
    Has(ls, k, Word("from")) && Has(ls, k + 1, Word(table)) && WhereAt(ls, k + 2, n, w)
  }

  /** The first n lexemes are the statement s. */
  ghost predicate StatementAt(ls: seq<Lexeme>, n: nat, s: Statement)
  {
    match s
    case CreateTable(table, columns) =>
      Has(ls, 0, Word("create")) && Has(ls, 1, Word("table")) && Has(ls, 2, Word(table)) && Has(ls, 3, Mark('(')) &&
      n > 0 && ColumnsAt(ls, 4, n - 1, columns) && Has(ls, n - 1, Mark(')'))
    case DropTable(table) =>
      Has(ls, 0, Word("drop")) && Has(ls, 1, Word("table")) && Has(ls, 2, Word(table)) && n == 3
    case Insert(table, names, values) => Has(ls, 0, Word("insert")) && InsertAt(ls, n, table, names, values)
    case Select(table, names, w) => Has(ls, 0, Word("select")) && SelectAt(ls, n, table, names, w)
  }

  /** The lexemes are the statement s, with or without a semicolon behind it. */
  ghost predicate IsStatement(ls: seq<Lexeme>, s: Statement)
  {
    StatementAt(ls, |ls|, s) || (ls != [] && ls[|ls| - 1] == Mark(';') && StatementAt(ls, |ls| - 1, s))
  }

  /* ---- the parser takes its phrases ---- */

  ghost predicate Read(toks: seq<Token>, ls: seq<Lexeme>) { Reads(toks, ls) && Ended(toks) && AllOk(ls) }

  /** A token's kind and text tell its lexeme. */
  lemma Sees(toks: seq<Token>, ls: seq<Lexeme>, i: nat)
    requires Read(toks, ls) && i < |toks|
    ensures toks[i].kind == End <==> i == |ls|
    ensures toks[i].kind == Ident <==> i < |ls| && ls[i] == Word(toks[i].text)
    ensures toks[i].kind == StringLit <==> i < |ls| && ls[i] == Quoted(toks[i].text)
    ensures toks[i].kind == Integer <==> WholeNumberAt(ls, i)
    ensures toks[i].kind in {Integer, Decimal} <==> i < |ls| && ls[i] == Bare(toks[i].text)
    ensures i < |ls| && ls[i].Word? ==> ls[i].word == toks[i].text == Lower(toks[i].original)
    ensures i < |ls| && ls[i].Quoted? ==> ls[i].text == toks[i].text
    ensures i < |ls| && ls[i].Bare? ==> ls[i].number == toks[i].text
  {
    hide IsName, IsNumber, Lower;
    if i < |ls| { assert Fits(toks[i], ls[i]) && LexemeOk(ls[i]); }
  }

  lemma SeesMark(toks: seq<Token>, ls: seq<Lexeme>, i: nat)
    requires Read(toks, ls) && i < |toks|
    ensures toks[i].kind == Comma <==> Has(ls, i, Mark(','))
    ensures toks[i].kind == LParen <==> Has(ls, i, Mark('('))
    ensures toks[i].kind == RParen <==> Has(ls, i, Mark(')'))
    ensures toks[i].kind == Semicolon <==> Has(ls, i, Mark(';'))
    ensures toks[i].kind == Equals <==> Has(ls, i, Mark('='))
    ensures toks[i].kind == Star <==> Has(ls, i, Mark('*'))
  {
    hide IsName, IsNumber, Lower;
    if i < |ls| { assert Fits(toks[i], ls[i]) && LexemeOk(ls[i]); }
  }

  lemma SeesKeyword(toks: seq<Token>, ls: seq<Lexeme>, i: nat, kw: string)
    requires Read(toks, ls) && i < |toks| && Lower(kw) == kw
    ensures Keyword(toks[i], kw) <==> Has(ls, i, Word(kw))
  {
    hide IsNumber, Lower;
    Sees(toks, ls, i);
    if i < |ls| { assert LexemeOk(ls[i]); }
  }

  lemma JoiningExactly<T>(x: T, rest: Phrase<seq<T>>, items: seq<T>, j: nat)
    ensures Joining([x], rest) == Good(items, j) <==>
            items != [] && items[0] == x && rest == Good(items[1..], j)
  {
    if rest.Good? {
      assert ([x] + rest.value)[1..] == rest.value;
      assert items != [] ==> items == [items[0]] + items[1..];
    }
  }

  lemma {:induction false} NamesExactly(toks: seq<Token>, ls: seq<Lexeme>, i: nat, names: seq<string>, j: nat)
    requires Read(toks, ls) && i < |toks|
    ensures ParseNames(toks, i) == Good(names, j) <==>
            NamesAt(ls, i, names) && j == i + 2 * |names| - 1 && !Has(ls, j, Mark(','))
    decreases |toks| - i
  {
    hide Read;
    Sees(toks, ls, i);
    if toks[i].kind == Ident {
      KnowEnded(toks, ls, i);
      SeesMark(toks, ls, i + 1);
      if toks[i + 1].kind == Comma {
        KnowEnded(toks, ls, i + 1);
        if names != [] { NamesExactly(toks, ls, i + 2, names[1..], j); }
        JoiningExactly(toks[i].text, ParseNames(toks, i + 2), names, j);
      } else if |names| == 1 {
        assert names == [names[0]];
      }
    }
  }

  lemma KnowEnded(toks: seq<Token>, ls: seq<Lexeme>, i: nat)
    requires Read(toks, ls) && i < |toks| && toks[i].kind != End
    ensures Ended(toks) && i + 1 < |toks|
  {
    hide Reads, AllOk;
  }

  lemma ValueExactly(toks: seq<Token>, ls: seq<Lexeme>, i: nat, v: Literal)
    requires Read(toks, ls) && i < |toks|
    ensures ParseLiteral(toks, i) == Good(v, i + 1) <==> ValueAt(ls, i, v)
  {
    hide Read, Keyword;
    Sees(toks, ls, i);
    NullIsLower();
    SeesKeyword(toks, ls, i, "null");
  }

  lemma NullIsLower()
    ensures Lower("null") == "null"
  {
  }

  lemma {:induction false} ValuesExactly(toks: seq<Token>, ls: seq<Lexeme>, i: nat, vs: seq<Literal>, j: nat)
    requires Read(toks, ls) && i < |toks|
    ensures ParseLiterals(toks, i) == Good(vs, j) <==>
            ValuesAt(ls, i, vs) && j == i + 2 * |vs| - 1 && !Has(ls, j, Mark(','))
    decreases |toks| - i
  {
    hide Read, ParseLiteral, ValueAt;
    var first := ParseLiteral(toks, i);
    if vs != [] { ValueExactly(toks, ls, i, vs[0]); }
    if first.Good? {
      ValueExactly(toks, ls, i, first.value);
      KnowEnded(toks, ls, i);
      SeesMark(toks, ls, i + 1);
      if toks[i + 1].kind == Comma {
        KnowEnded(toks, ls, i + 1);
        if vs != [] { ValuesExactly(toks, ls, i + 2, vs[1..], j); }
        JoiningExactly(first.value, ParseLiterals(toks, i + 2), vs, j);
      } else if |vs| == 1 {
        assert vs == [vs[0]];
      }
    }
  }

  /* ---- columns ---- */

  lemma Folds(s: string, up: string, low: string)
    requires Upper(low) == up && Lower(up) == low
    ensures Upper(s) == up <==> Lower(s) == low
  {
    assert Upper(Lower(s)) == Upper(s) && Lower(Upper(s)) == Lower(s);
  }

  lemma IntFolds(s: string)
    ensures Upper(s) == "INT" || Upper(s) == "INTEGER" || Upper(s) == "BIGINT" <==>
            Lower(s) in TypeNames(INT)
  {
    Folds(s, "INT", "int");
    Folds(s, "INTEGER", "integer");
    Folds(s, "BIGINT", "bigint");
  }

  lemma DoubleFolds(s: string)
    ensures Upper(s) == "DOUBLE" || Upper(s) == "FLOAT" || Upper(s) == "REAL" <==>
            Lower(s) in TypeNames(DOUBLE)
  {
    Folds(s, "DOUBLE", "double");
    Folds(s, "FLOAT", "float");
    Folds(s, "REAL", "real");
  }

  lemma StringFolds(s: string)
    ensures Upper(s) == "STRING" || Upper(s) == "TEXT" || Upper(s) == "VARCHAR" || Upper(s) == "CHAR" <==>
            Lower(s) in TypeNames(STRING)
  {
    Folds(s, "STRING", "string");
    Folds(s, "TEXT", "text");
    Folds(s, "VARCHAR", "varchar");
    Folds(s, "CHAR", "char");
  }

  lemma BoolFolds(s: string)
    ensures Upper(s) == "BOOL" || Upper(s) == "BOOLEAN" <==>
            Lower(s) in TypeNames(BOOL)
  {
    Folds(s, "BOOL", "bool");
    Folds(s, "BOOLEAN", "boolean");
  }

  function KindOf(word: string): Option<ColumnType>
  {
    if word in TypeNames(INT) then Some(INT)
    else if word in TypeNames(DOUBLE) then Some(DOUBLE)
    else if word in TypeNames(STRING) then Some(STRING)
    else if word in TypeNames(BOOL) then Some(BOOL)
    else None
  }

  lemma TypeByWord(original: string)
    ensures ColumnTypeFromString(original) == KindOf(Lower(original))
  {
    hide Upper, Lower, TypeNames;
    IntFolds(original);
    DoubleFolds(original);
    StringFolds(original);
    BoolFolds(original);
  }

  lemma KindExactly(word: string, t: ColumnType)
    ensures KindOf(word) == Some(t) <==> word in TypeNames(t)
  {
  }

  lemma TypeExactly(original: string, t: ColumnType)
    ensures ColumnTypeFromString(original) == Some(t) <==> Lower(original) in TypeNames(t)
  {
    hide ColumnTypeFromString, KindOf, TypeNames, Lower;
    TypeByWord(original);
    KindExactly(Lower(original), t);
  }

  lemma SeesType(toks: seq<Token>, ls: seq<Lexeme>, i: nat, t: ColumnType)
    requires Read(toks, ls) && i < |toks|
    ensures toks[i].kind == Ident && ColumnTypeFromString(toks[i].original) == Some(t) <==> TypeAt(ls, i, t)
  {
    hide Read, Lower, ColumnTypeFromString, TypeNames;
    Sees(toks, ls, i);
    TypeExactly(toks[i].original, t);
  }

  lemma LengthExactly(toks: seq<Token>, ls: seq<Lexeme>, i: nat, j: nat)
    requires Read(toks, ls) && Ended(toks) && i < |toks| && j < |toks| && toks[j].kind != LParen
    ensures SkipLength(toks, i) == Good((), j) <==>
            j == i || (j == i + 3 && Has(ls, i, Mark('(')) && WholeNumberAt(ls, i + 1) && Has(ls, i + 2, Mark(')')))
  {
    hide Read;
    SeesMark(toks, ls, i);
    if toks[i].kind == LParen {
      Sees(toks, ls, i + 1);
      if toks[i + 1].kind == Integer { SeesMark(toks, ls, i + 2); }
    }
  }

  /** A column that a comma or a closing parenthesis follows. */
  lemma ColumnExactly(toks: seq<Token>, ls: seq<Lexeme>, i: nat, c: Column, j: nat)
    requires Read(toks, ls) && Ended(toks) && i < |toks| && j < |toks| && toks[j].kind in {Comma, RParen}
    ensures ParseColumn(toks, i) == Good(c, j) <==> ColumnAt(ls, i, j, c)
  {
    hide Read, SkipLength, ColumnTypeFromString, TypeAt;
    Sees(toks, ls, i);
    if toks[i].kind == Ident {
      Sees(toks, ls, i + 1);
      SeesType(toks, ls, i + 1, c.kind);
      if toks[i + 1].kind == Ident {
        LengthExactly(toks, ls, i + 2, j);
        assert SkipLength(toks, i + 2).Good? ==> SkipLength(toks, i + 2).value == ();
      }
    }
  }

  lemma {:induction false} ColumnsAreWritten(toks: seq<Token>, ls: seq<Lexeme>, i: nat, cs: seq<Column>, j: nat)
    requires Read(toks, ls) && Ended(toks) && i < |toks| && j < |toks| && toks[j].kind == RParen
    requires ParseColumns(toks, i) == Good(cs, j)
    ensures ColumnsAt(ls, i, j, cs)
    decreases |toks| - i
  {
    hide Read, ParseColumn, ColumnAt;
    var c, k := ParseColumn(toks, i).value, ParseColumn(toks, i).next;
    ColumnExactly(toks, ls, i, c, k);
    if toks[k].kind == Comma {
      SeesMark(toks, ls, k);
      JoiningExactly(c, ParseColumns(toks, k + 1), cs, j);
      ColumnsAreWritten(toks, ls, k + 1, cs[1..], j);
    }
  }

  lemma {:induction false} ColumnsAreParsed(toks: seq<Token>, ls: seq<Lexeme>, i: nat, cs: seq<Column>, j: nat)
    requires Read(toks, ls) && Ended(toks) && i < |toks| && j < |toks| && toks[j].kind == RParen
    requires ColumnsAt(ls, i, j, cs)
    ensures ParseColumns(toks, i) == Good(cs, j)
    decreases |cs|
  {
    hide Read, ParseColumn, ColumnAt;
    if |cs| == 1 {
      ColumnExactly(toks, ls, i, cs[0], j);
      assert cs == [cs[0]];
    } else {
      var k: nat :| ColumnAt(ls, i, k, cs[0]) && Has(ls, k, Mark(',')) && ColumnsAt(ls, k + 1, j, cs[1..]);
      hide ColumnsAt, ParseColumns;
      KnowLength(toks, ls);
      ColumnsAreParsed(toks, ls, k + 1, cs[1..], j);
      OneMoreColumn(toks, ls, i, cs, k, j);
    }
  }

  lemma OneMoreColumn(toks: seq<Token>, ls: seq<Lexeme>, i: nat, cs: seq<Column>, k: nat, j: nat)
    requires Read(toks, ls) && Ended(toks) && i < |toks| && k + 1 < |toks| && cs != []
    requires ColumnAt(ls, i, k, cs[0]) && Has(ls, k, Mark(',')) && ParseColumns(toks, k + 1) == Good(cs[1..], j)
    ensures ParseColumns(toks, i) == Good(cs, j)
  {
    hide Read, ParseColumn, ColumnAt;
    SeesMark(toks, ls, k);
    ColumnExactly(toks, ls, i, cs[0], k);
    JoiningExactly(cs[0], ParseColumns(toks, k + 1), cs, j);
  }

  lemma KnowLength(toks: seq<Token>, ls: seq<Lexeme>)
    requires Read(toks, ls)
    ensures |toks| == |ls| + 1 && Ended(toks) && toks[|ls|].kind == End
  {
    hide AllOk;
  }

  /* ---- WHERE ---- */

  lemma BoundExactly(toks: seq<Token>, ls: seq<Lexeme>, i: nat, n: uint64)
    requires Read(toks, ls) && i < |toks|
    ensures toks[i].kind == Integer && Stoull(toks[i].text) == Some(n) <==> BoundAt(ls, i, n)
  {
    hide Read;
    Sees(toks, ls, i);
    if WholeNumberAt(ls, i) { NumberIsOk(toks, ls, i); }
  }

  lemma NumberIsOk(toks: seq<Token>, ls: seq<Lexeme>, i: nat)
    requires Read(toks, ls) && i < |ls| && ls[i].Bare?
    ensures IsNumber(ls[i].number)
  {
    hide IsNumber, Fits;
    assert LexemeOk(ls[i]);
  }

  lemma KeywordsAreLower()
    ensures Lower("create") == "create" && Lower("table") == "table" && Lower("drop") == "drop"
    ensures Lower("insert") == "insert" && Lower("into") == "into" && Lower("values") == "values"
    ensures Lower("select") == "select" && Lower("from") == "from" && Lower("where") == "where"
    ensures Lower("between") == "between" && Lower("and") == "and"
  {
  }

  lemma BoundsExactly(toks: seq<Token>, ls: seq<Lexeme>, i: nat, lo: uint64, hi: uint64, n: nat)
    requires Read(toks, ls) && Ended(toks) && i < |toks|
    ensures ParseBounds(toks, i) == Good(TsBetween(lo, hi), n) <==>
            n == i + 3 && BoundAt(ls, i, lo) && Has(ls, i + 1, Word("and")) && BoundAt(ls, i + 2, hi)
  {
    hide Read, Stoull, BoundAt, Lower, Keyword;
    KeywordsAreLower();
    KnowLength(toks, ls);
    BoundExactly(toks, ls, i, lo);
    if toks[i].kind == Integer {
      SeesKeyword(toks, ls, i + 1, "and");
      if Has(ls, i + 1, Word("and")) { BoundExactly(toks, ls, i + 2, hi); }
    }
  }

  lemma EqualityExactly(toks: seq<Token>, ls: seq<Lexeme>, i: nat, c: string, v: Literal, n: nat)
    requires Read(toks, ls) && Ended(toks) && i < |toks|
    ensures ParseEquality(toks, i) == Good(Equal(c, v), n) <==>
            n == i + 3 && Has(ls, i, Word(c)) && Has(ls, i + 1, Mark('=')) && ValueAt(ls, i + 2, v)
  {
    hide Read, ParseLiteral, ValueAt;
    KnowLength(toks, ls);
    Sees(toks, ls, i);
    if toks[i].kind == Ident {
      SeesMark(toks, ls, i + 1);
      if toks[i + 1].kind == Equals { ValueExactly(toks, ls, i + 2, v); }
    }
  }

  lemma WhereKinds(toks: seq<Token>, i: nat)
    requires Ended(toks) && i < |toks|
    ensures var r := ParseBounds(toks, i); r.Good? ==> r.value.TsBetween?
    ensures var r := ParseEquality(toks, i); r.Good? ==> r.value.Equal?
  {
    hide Stoull, Keyword;
  }

  lemma EqualExactly(toks: seq<Token>, ls: seq<Lexeme>, i: nat, c: string, v: Literal, n: nat)
    requires Read(toks, ls) && Ended(toks) && i + 1 < |toks| && Keyword(toks[i], "where") && Has(ls, i, Word("where"))
    ensures ParseWhere(toks, i) == Good(Equal(c, v), n) <==> WhereAt(ls, i, n, Equal(c, v))
  {
    hide Read, ParseBounds, ParseEquality, ValueAt, Lower, Keyword;
    KeywordsAreLower();
    KnowLength(toks, ls);
    EqualityExactly(toks, ls, i + 1, c, v, n);
    if AsksBetween(toks, i + 1) {
      SeesKeyword(toks, ls, i + 2, "between");
      WhereKinds(toks, i + 3);
    }
  }

  lemma BetweenExactly(toks: seq<Token>, ls: seq<Lexeme>, i: nat, lo: uint64, hi: uint64, n: nat)
    requires Read(toks, ls) && Ended(toks) && i + 1 < |toks| && Keyword(toks[i], "where") && Has(ls, i, Word("where"))
    ensures ParseWhere(toks, i) == Good(TsBetween(lo, hi), n) <==> WhereAt(ls, i, n, TsBetween(lo, hi))
  {
    hide Read, ParseBounds, ParseEquality, BoundAt, Lower, Keyword;
    KeywordsAreLower();
    KnowLength(toks, ls);
    Sees(toks, ls, i + 1);
    WhereKinds(toks, i + 1);
    if i + 2 < |toks| { SeesKeyword(toks, ls, i + 2, "between"); }
    if AsksBetween(toks, i + 1) { BoundsExactly(toks, ls, i + 3, lo, hi, n); }
  }

  lemma WhereIsNotNothing(toks: seq<Token>, i: nat)
    requires Ended(toks) && i + 1 < |toks| && Keyword(toks[i], "where") && ParseWhere(toks, i).Good?
    ensures !ParseWhere(toks, i).value.Everything?
  {
    hide ParseBounds, ParseEquality, Keyword;
    WhereKinds(toks, i + 1);
    if AsksBetween(toks, i + 1) { WhereKinds(toks, i + 3); }
  }

  /** A WHERE clause, or none, in front of the end or the semicolon. */
  lemma WhereExactly(toks: seq<Token>, ls: seq<Lexeme>, i: nat, w: Where, n: nat)
    requires Read(toks, ls) && Ended(toks) && i < |toks| && n < |toks| && toks[n].kind in {Semicolon, End}
    ensures ParseWhere(toks, i) == Good(w, n) <==> WhereAt(ls, i, n, w)
  {
    hide Read, ParseBounds, ParseEquality, BoundAt, ValueAt, Lower, Keyword;
    KeywordsAreLower();
    SeesKeyword(toks, ls, i, "where");
    Sees(toks, ls, i);
    Sees(toks, ls, n);
    if Keyword(toks[i], "where") {
      hide ParseWhere;
      KnowEnded(toks, ls, i);
      match w {
        case Everything => if ParseWhere(toks, i).Good? { WhereIsNotNothing(toks, i); }
        case Equal(c, v) => EqualExactly(toks, ls, i, c, v, n);
        case TsBetween(lo, hi) => BetweenExactly(toks, ls, i, lo, hi, n);
      }
    }
  }

  /* ---- statements ---- */

  lemma CreateExactly(toks: seq<Token>, ls: seq<Lexeme>, s: Statement, n: nat)
    requires Read(toks, ls) && Ended(toks) && 1 < |toks| && n < |toks| && s.CreateTable? && Has(ls, 0, Word("create"))
    ensures ParseCreate(toks, 1) == Good(s, n) <==> StatementAt(ls, n, s)
  {
    hide Read, ParseColumns, ColumnsAt, Keyword, Lower;
    KeywordsAreLower();
    KnowLength(toks, ls);
    SeesKeyword(toks, ls, 1, "table");
    if Has(ls, 1, Word("table")) {
      Sees(toks, ls, 2);
      if toks[2].kind == Ident {
        SeesMark(toks, ls, 3);
        if toks[3].kind == LParen { ColumnsInCreate(toks, ls, s, n); }
      }
    }
  }

  lemma ColumnsInCreate(toks: seq<Token>, ls: seq<Lexeme>, s: Statement, n: nat)
    requires Read(toks, ls) && Ended(toks) && 4 < |toks| && n < |toks| && s.CreateTable?
    ensures var columns := ParseColumns(toks, 4);
            columns.Good? && toks[columns.next].kind == RParen && columns.value == s.columns &&
            n == columns.next + 1 <==>
            n > 0 && ColumnsAt(ls, 4, n - 1, s.columns) && Has(ls, n - 1, Mark(')'))
  {
    hide Read, ParseColumns, ColumnsAt;
    KnowLength(toks, ls);
    if n > 0 {
      SeesMark(toks, ls, n - 1);
      if toks[n - 1].kind == RParen {
        if ParseColumns(toks, 4) == Good(s.columns, n - 1) { ColumnsAreWritten(toks, ls, 4, s.columns, n - 1); }
        if ColumnsAt(ls, 4, n - 1, s.columns) { ColumnsAreParsed(toks, ls, 4, s.columns, n - 1); }
      }
    }
  }

  lemma DropExactly(toks: seq<Token>, ls: seq<Lexeme>, s: Statement, n: nat)
    requires Read(toks, ls) && Ended(toks) && 1 < |toks| && s.DropTable? && Has(ls, 0, Word("drop"))
    ensures ParseDrop(toks, 1) == Good(s, n) <==> StatementAt(ls, n, s)
  {
    hide Read, Keyword, Lower;
    KeywordsAreLower();
    KnowLength(toks, ls);
    SeesKeyword(toks, ls, 1, "table");
    if Has(ls, 1, Word("table")) { Sees(toks, ls, 2); }
  }

  /** The names of an INSERT, or none. */
  lemma InsertNamesExactly(toks: seq<Token>, ls: seq<Lexeme>, names: seq<string>, k: nat)
    requires Read(toks, ls) && Ended(toks) && 3 < |toks| && k < |toks| && toks[k].kind == Ident
    ensures ParseInsertNames(toks, 3) == Good(names, k) <==>
            k == (if names == [] then 3 else 4 + 2 * |names|) &&
            (names != [] ==> Has(ls, 3, Mark('(')) && NamesAt(ls, 4, names) && Has(ls, k - 1, Mark(')')))
  {
    hide Read, ParseNames, NamesAt;
    KnowLength(toks, ls);
    SeesMark(toks, ls, 3);
    if toks[3].kind == LParen {
      var r := ParseNames(toks, 4);
      if r.Good? {
        NamesExactly(toks, ls, 4, r.value, r.next);
        SeesMark(toks, ls, r.next);
        NamesAreSome(ls, 4, r.value);
      }
      if names != [] {
        NamesExactly(toks, ls, 4, names, 3 + 2 * |names|);
        if 3 + 2 * |names| < |toks| { SeesMark(toks, ls, 3 + 2 * |names|); }
      }
    }
  }

  lemma NamesAreSome(ls: seq<Lexeme>, i: nat, names: seq<string>)
    requires NamesAt(ls, i, names)
    ensures names != []
  {
  }

  lemma ValuesAreSome(ls: seq<Lexeme>, i: nat, vs: seq<Literal>)
    requires ValuesAt(ls, i, vs)
    ensures vs != []
  {
  }

  lemma ValuesToTheEnd(toks: seq<Token>, ls: seq<Lexeme>, i: nat, vs: seq<Literal>, n: nat)
    requires Read(toks, ls) && Ended(toks) && i < |toks| && n < |toks|
    ensures var r := ParseLiterals(toks, i);
            r.Good? && toks[r.next].kind == RParen && r.value == vs && n == r.next + 1 <==>
            ValuesAt(ls, i, vs) && n == i + 2 * |vs| && Has(ls, n - 1, Mark(')'))
  {
    hide Read, ParseLiterals, ValuesAt;
    KnowLength(toks, ls);
    if ValuesAt(ls, i, vs) { ValuesAreSome(ls, i, vs); }
    if n > 0 {
      ValuesExactly(toks, ls, i, vs, n - 1);
      SeesMark(toks, ls, n - 1);
    }
  }

  lemma InsertValuesUnfold(toks: seq<Token>, k: nat)
    requires Ended(toks) && k < |toks|
    ensures ParseInsertValues(toks, k).Good? ==> Keyword(toks[k], "values") && toks[k + 1].kind == LParen
    ensures Keyword(toks[k], "values") && toks[k + 1].kind == LParen ==>
              var r := ParseLiterals(toks, k + 2);
              (ParseInsertValues(toks, k).Good? <==> r.Good? && toks[r.next].kind == RParen) &&
              (ParseInsertValues(toks, k).Good? ==> ParseInsertValues(toks, k) == Good(r.value, r.next + 1))
  {
    hide ParseLiterals, IEquals;
  }

  lemma InsertValuesExactly(toks: seq<Token>, ls: seq<Lexeme>, k: nat, vs: seq<Literal>, n: nat)
    requires Read(toks, ls) && Ended(toks) && k < |toks| && n < |toks|
    ensures ParseInsertValues(toks, k) == Good(vs, n) <==>
            Has(ls, k, Word("values")) && Has(ls, k + 1, Mark('(')) && ValuesAt(ls, k + 2, vs) &&
            n == k + 2 + 2 * |vs| && Has(ls, n - 1, Mark(')'))
  {
    hide Read, ParseLiterals, ParseInsertValues, ValuesAt, Keyword, Lower, Ended;
    KnowLength(toks, ls);
    InsertValuesUnfold(toks, k);
    assert Keyword(toks[k], "values") <==> Has(ls, k, Word("values")) by {
      KeywordsAreLower();
      SeesKeyword(toks, ls, k, "values");
    }
    if Has(ls, k, Word("values")) {
      SeesMark(toks, ls, k + 1);
      if toks[k + 1].kind == LParen {
        assert k + 2 < |toks| by { KnowEnded(toks, ls, k + 1); }
        ValuesToTheEnd(toks, ls, k + 2, vs, n);
      }
    }
  }

  lemma InsertExactly(toks: seq<Token>, ls: seq<Lexeme>, s: Statement, n: nat)
    requires Read(toks, ls) && Ended(toks) && 1 < |toks| && n < |toks| && s.Insert? && Has(ls, 0, Word("insert"))
    ensures ParseInsert(toks, 1) == Good(s, n) <==> StatementAt(ls, n, s)
  {
    hide Read, ParseInsertNames, ParseInsertValues, NamesAt, ValuesAt, Keyword, Lower;
    KeywordsAreLower();
    KnowLength(toks, ls);
    SeesKeyword(toks, ls, 1, "into");
    if Has(ls, 1, Word("into")) {
      Sees(toks, ls, 2);
      if toks[2].kind == Ident { PartsOfInsert(toks, ls, s, n); }
    }
  }

  lemma PartsOfInsert(toks: seq<Token>, ls: seq<Lexeme>, s: Statement, n: nat)
    requires Read(toks, ls) && Ended(toks) && 3 < |toks| && n < |toks| && s.Insert?
    requires Has(ls, 1, Word("into")) && Has(ls, 2, Word(toks[2].text))
    ensures var names := ParseInsertNames(toks, 3);
            names.Good? && names.value == s.names && ParseInsertValues(toks, names.next) == Good(s.values, n) &&
            (s.names == [] || |s.names| == |s.values|) && s.table == toks[2].text <==>
            InsertAt(ls, n, s.table, s.names, s.values)
  {
    hide Read, ParseInsertNames, ParseInsertValues, NamesAt, ValuesAt;
    KnowLength(toks, ls);
    var r := ParseInsertNames(toks, 3);
    if r.Good? {
      InsertValuesExactly(toks, ls, r.next, s.values, n);
      Sees(toks, ls, r.next);
      if Has(ls, r.next, Word("values")) { InsertNamesExactly(toks, ls, r.value, r.next); }
    }
    var k := if s.names == [] then 3 else 4 + 2 * |s.names|;
    if Has(ls, k, Word("values")) {
      Sees(toks, ls, k);
      InsertNamesExactly(toks, ls, s.names, k);
      InsertValuesExactly(toks, ls, k, s.values, n);
    }
  }

  lemma ProjectionExactly(toks: seq<Token>, ls: seq<Lexeme>, names: seq<string>, k: nat)
    requires Read(toks, ls) && Ended(toks) && 1 < |toks| && k < |toks| && toks[k].kind == Ident
    ensures ParseProjection(toks, 1) == Good(names, k) <==>
            k == (if names == [] then 2 else 2 * |names|) &&
            if names == [] then Has(ls, 1, Mark('*')) else NamesAt(ls, 1, names)
  {
    hide Read, ParseNames;
    KnowLength(toks, ls);
    SeesMark(toks, ls, 1);
    Sees(toks, ls, k);
    NamesExactly(toks, ls, 1, names, k);
  }

  lemma SelectExactly(toks: seq<Token>, ls: seq<Lexeme>, s: Statement, n: nat)
    requires Read(toks, ls) && Ended(toks) && 1 < |toks| && n < |toks| && toks[n].kind in {Semicolon, End}
    requires s.Select? && Has(ls, 0, Word("select"))
    ensures ParseSelect(toks, 1) == Good(s, n) <==> StatementAt(ls, n, s)
  {
    hide Read, ParseProjection, ParseWhere, NamesAt, WhereAt, Keyword, Lower;
    KeywordsAreLower();
    KnowLength(toks, ls);
    var r := ParseProjection(toks, 1);
    if r.Good? {
      SeesKeyword(toks, ls, r.next, "from");
      if Has(ls, r.next, Word("from")) {
        Sees(toks, ls, r.next);
        ProjectionExactly(toks, ls, r.value, r.next);
        TableAndWhere(toks, ls, r.next, s, n);
      }
    }
    var k := if s.projection == [] then 2 else 2 * |s.projection|;
    if Has(ls, k, Word("from")) {
      SeesKeyword(toks, ls, k, "from");
      Sees(toks, ls, k);
      ProjectionExactly(toks, ls, s.projection, k);
      TableAndWhere(toks, ls, k, s, n);
    }
  }

  lemma TableAndWhere(toks: seq<Token>, ls: seq<Lexeme>, k: nat, s: Statement, n: nat)
    requires Read(toks, ls) && Ended(toks) && k + 1 < |toks| && n < |toks| && toks[n].kind in {Semicolon, End}
    requires s.Select?
    ensures toks[k + 1].kind == Ident && toks[k + 1].text == s.table && ParseWhere(toks, k + 2) == Good(s.where, n) <==>
            Has(ls, k + 1, Word(s.table)) && WhereAt(ls, k + 2, n, s.where)
  {
    hide Read, ParseWhere, WhereAt;
    Sees(toks, ls, k + 1);
    if toks[k + 1].kind == Ident { WhereExactly(toks, ls, k + 2, s.where, n); }
  }

  lemma StatementKinds(toks: seq<Token>)
    requires Ended(toks) && 1 < |toks|
    ensures ParseCreate(toks, 1).Good? ==> ParseCreate(toks, 1).value.CreateTable?
    ensures ParseDrop(toks, 1).Good? ==> ParseDrop(toks, 1).value.DropTable?
    ensures ParseInsert(toks, 1).Good? ==> ParseInsert(toks, 1).value.Insert?
    ensures ParseSelect(toks, 1).Good? ==> ParseSelect(toks, 1).value.Select?
  {
    hide Keyword, ParseColumns, ParseInsertNames, ParseInsertValues, ParseProjection, ParseWhere;
  }

  lemma BodyExactly(toks: seq<Token>, ls: seq<Lexeme>, s: Statement, n: nat)
    requires Read(toks, ls) && Ended(toks) && n < |toks| && toks[n].kind in {Semicolon, End}
    ensures ParseBody(toks) == Good(s, n) <==> StatementAt(ls, n, s)
  {
    hide Read, ParseCreate, ParseDrop, ParseInsert, ParseSelect, Lower, ColumnsAt, InsertAt, SelectAt;
    KeywordsAreLower();
    SeesKeyword(toks, ls, 0, "create");
    SeesKeyword(toks, ls, 0, "drop");
    SeesKeyword(toks, ls, 0, "insert");
    SeesKeyword(toks, ls, 0, "select");
    if toks[0].kind == Ident {
      StatementKinds(toks);
      DifferentKeywords();
      match s {
        case CreateTable(_, _) => if Has(ls, 0, Word("create")) { CreateExactly(toks, ls, s, n); }
        case DropTable(_) => if Has(ls, 0, Word("drop")) { DropExactly(toks, ls, s, n); }
        case Insert(_, _, _) => if Has(ls, 0, Word("insert")) { InsertExactly(toks, ls, s, n); }
        case Select(_, _, _) => if Has(ls, 0, Word("select")) { SelectExactly(toks, ls, s, n); }
      }
    }
  }

  lemma DifferentKeywords()
    ensures "create" != "insert" && "create" != "select" && "insert" != "select"
    ensures "drop" != "create" && "drop" != "insert" && "drop" != "select"
  {
    assert "create"[0] != "insert"[0] && "create"[0] != "select"[0] && "insert"[0] != "select"[0];
  }

  /* ---- the theorem ---- */

  lemma TokensExactly(toks: seq<Token>, ls: seq<Lexeme>, s: Statement)
    requires Read(toks, ls) && Ended(toks)
    ensures ParseTokens(toks) == Ok(s) <==> IsStatement(ls, s)
  {
    hide Read, ParseBody, StatementAt;
    KnowLength(toks, ls);
    BodyExactly(toks, ls, s, |ls|);
    if ls != [] {
      SeesMark(toks, ls, |ls| - 1);
      if toks[|ls| - 1].kind == Semicolon { BodyExactly(toks, ls, s, |ls| - 1); }
    }
  }

  /** The parser takes exactly the texts that spell a statement of the grammar, and gives that statement. */
  lemma ParsesExactlyTheGrammar(sql: string, s: Statement)
    ensures ParseStatement(sql) == Ok(s) <==> exists ls :: AllOk(ls) && Spells(sql, ls) && IsStatement(ls, s)
  {
    hide Tokens, ParseTokens, Reads, Spells, AllOk, IsStatement;
    if ParseStatement(sql) == Ok(s) {
      var ls := ReadIsSpelled(sql, 0);
      TokensEnd(sql, 0);
      TokensExactly(Tokens(sql, 0).value, ls, s);
    }
    if ls :| AllOk(ls) && Spells(sql, ls) && IsStatement(ls, s) { SpelledIsParsed(sql, ls, s); }
  }

  lemma SpelledIsParsed(sql: string, ls: seq<Lexeme>, s: Statement)
    requires AllOk(ls) && Spells(sql, ls) && IsStatement(ls, s)
    ensures ParseStatement(sql) == Ok(s)
  {
    hide Tokens, ParseTokens, Reads, Spells, AllOk, IsStatement;
    SpelledIsRead(sql, ls, 0);
    TokensEnd(sql, 0);
    TokensExactly(Tokens(sql, 0).value, ls, s);
  }
}
