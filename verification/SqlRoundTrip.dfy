/** Every well-formed statement has texts that parse to it: a canonical one, and all those that write some
    of its numbers without quotes. */
module SqlRoundTrip {
  import opened Text
  import opened SqlLexer
  import opened SqlLexemes
  import opened SqlParser
  import opened SqlGrammar

  /* ---- which statements have one ---- */

  predicate LiteralOk(v: Literal) { v.isNull ==> v.text == "" }

  predicate WellFormed(s: Statement)
  {
    IsName(s.table) &&
    match s
    case CreateTable(_, columns) => columns != [] && forall i | 0 <= i < |columns| :: IsName(columns[i].name)
    case DropTable(_) => true
    case Insert(_, names, values) =>
      values != [] && (names == [] || |names| == |values|) &&
      (forall i | 0 <= i < |names| :: IsName(names[i])) && (forall i | 0 <= i < |values| :: LiteralOk(values[i]))
    case Select(_, projection, where) =>
      (forall i | 0 <= i < |projection| :: IsName(projection[i])) &&
      (where.Equal? ==> IsName(where.column) && LiteralOk(where.value))
  }

  /* ---- their lexemes ---- */

  function TypeName(t: ColumnType): (w: string)
    ensures w in TypeNames(t)
  {
    match t
    case INT => "int"
    case DOUBLE => "double"
    case STRING => "string"
    case BOOL => "bool"
  }

  /** A number in `bare` is written as it is, everything else between quotes. */
  function LiteralLexeme(v: Literal, bare: set<string>): Lexeme
  {
    if v.isNull then Word("null") else if v.text in bare && IsNumber(v.text) then Bare(v.text) else Quoted(v.text)
  }

  function ColumnLexemes(cs: seq<Column>): seq<Lexeme>
  {
    if cs == [] then []
    else
      [Word(cs[0].name), Word(TypeName(cs[0].kind))]
      + (if |cs| == 1 then [] else [Mark(',')] + ColumnLexemes(cs[1..]))
  }

  function NameLexemes(names: seq<string>): seq<Lexeme>
  {
    if names == [] then []
    else [Word(names[0])] + (if |names| == 1 then [] else [Mark(',')] + NameLexemes(names[1..]))
  }

  function LiteralLexemes(vs: seq<Literal>, bare: set<string>): seq<Lexeme>
  {
    if vs == [] then []
    else [LiteralLexeme(vs[0], bare)] + (if |vs| == 1 then [] else [Mark(',')] + LiteralLexemes(vs[1..], bare))
  }

  function WhereLexemes(w: Where, bare: set<string>): seq<Lexeme>
  {
    match w
    case Everything => []
    case Equal(column, value) => [Word("where"), Word(column), Mark('='), LiteralLexeme(value, bare)]
    case TsBetween(lo, hi) =>
      [Word("where"), Word("__ts"), Word("between"), Bare(Text.Decimal(lo)), Word("and"), Bare(Text.Decimal(hi))]
  }

  function InsertNames(names: seq<string>): seq<Lexeme>
  {
    if names == [] then [] else [Mark('(')] + NameLexemes(names) + [Mark(')')]
  }

  function Projection(names: seq<string>): seq<Lexeme> { if names == [] then [Mark('*')] else NameLexemes(names) }

  function InsertValues(vs: seq<Literal>, bare: set<string>): seq<Lexeme>
  {
    [Word("values"), Mark('(')] + LiteralLexemes(vs, bare) + [Mark(')')]
  }

  function Lexemes(s: Statement, bare: set<string>): seq<Lexeme>
  {
    match s
    case CreateTable(table, columns) =>
      [Word("create"), Word("table"), Word(table), Mark('(')] + ColumnLexemes(columns) + [Mark(')')]
    case DropTable(table) => [Word("drop"), Word("table"), Word(table)]
    case Insert(table, names, values) =>
      [Word("insert"), Word("into"), Word(table)] + InsertNames(names) + InsertValues(values, bare)
    case Select(table, projection, where) =>
      [Word("select")] + Projection(projection) + [Word("from"), Word(table)] + WhereLexemes(where, bare)
  }

  /* ---- they are a statement of the grammar ---- */

  /** `part` stands at index i of ls. */
  predicate At(ls: seq<Lexeme>, i: nat, part: seq<Lexeme>) { i + |part| <= |ls| && ls[i..i + |part|] == part }

  lemma AtFirst(ls: seq<Lexeme>, i: nat, part: seq<Lexeme>, k: nat)
    requires At(ls, i, part) && k <= |part|
    ensures forall j | 0 <= j < |part| :: ls[i + j] == part[j]
    ensures At(ls, i + k, part[k..])
  {
    forall j | 0 <= j < |part| ensures ls[i + j] == part[j] { assert ls[i..i + |part|][j] == ls[i + j]; }
    assert ls[i + k..i + k + |part[k..]|] == part[k..];
  }

  lemma AtParts(ls: seq<Lexeme>, i: nat, a: seq<Lexeme>, b: seq<Lexeme>)
    requires At(ls, i, a + b)
    ensures At(ls, i, a) && At(ls, i + |a|, b)
  {
    var part := ls[i..i + |a + b|];
    assert ls[i..i + |a|] == part[..|a|] && ls[i + |a|..i + |a| + |b|] == part[|a|..];
    CutWhereJoined(a, b);
  }

  lemma AtOne(ls: seq<Lexeme>, i: nat, l: Lexeme)
    requires At(ls, i, [l])
    ensures Has(ls, i, l)
  {
    assert ls[i..i + 1][0] == ls[i];
  }

  lemma {:induction false} NamesPlaced(ls: seq<Lexeme>, i: nat, names: seq<string>)
    requires names != [] && At(ls, i, NameLexemes(names))
    ensures NamesAt(ls, i, names) && |NameLexemes(names)| == 2 * |names| - 1
    decreases |names|
  {
    hide At;
    if |names| == 1 {
      assert NameLexemes(names) == [Word(names[0])];
      AtOne(ls, i, Word(names[0]));
    } else {
      var rest := NameLexemes(names[1..]);
      assert NameLexemes(names) == [Word(names[0])] + ([Mark(',')] + rest);
      AtParts(ls, i, [Word(names[0])], [Mark(',')] + rest);
      AtParts(ls, i + 1, [Mark(',')], rest);
      AtOne(ls, i, Word(names[0]));
      AtOne(ls, i + 1, Mark(','));
      NamesPlaced(ls, i + 2, names[1..]);
    }
  }

  lemma ValuePlaced(ls: seq<Lexeme>, i: nat, v: Literal, bare: set<string>)
    requires LiteralOk(v) && Has(ls, i, LiteralLexeme(v, bare))
    ensures ValueAt(ls, i, v)
  {
  }

  lemma {:induction false} ValuesPlaced(ls: seq<Lexeme>, i: nat, vs: seq<Literal>, bare: set<string>)
    requires vs != [] && At(ls, i, LiteralLexemes(vs, bare)) && forall k | 0 <= k < |vs| :: LiteralOk(vs[k])
    ensures ValuesAt(ls, i, vs) && |LiteralLexemes(vs, bare)| == 2 * |vs| - 1
    decreases |vs|
  {
    hide At, LiteralOk, LiteralLexeme, ValueAt;
    var first := LiteralLexeme(vs[0], bare);
    if |vs| == 1 {
      assert LiteralLexemes(vs, bare) == [first];
      AtOne(ls, i, first);
    } else {
      var rest := LiteralLexemes(vs[1..], bare);
      assert LiteralLexemes(vs, bare) == [first] + ([Mark(',')] + rest);
      AtParts(ls, i, [first], [Mark(',')] + rest);
      AtParts(ls, i + 1, [Mark(',')], rest);
      AtOne(ls, i, first);
      AtOne(ls, i + 1, Mark(','));
      ValuesPlaced(ls, i + 2, vs[1..], bare);
    }
    ValuePlaced(ls, i, vs[0], bare);
  }

  lemma {:induction false} ColumnsPlaced(ls: seq<Lexeme>, i: nat, cs: seq<Column>)
    requires cs != [] && At(ls, i, ColumnLexemes(cs))
    ensures ColumnsAt(ls, i, i + |ColumnLexemes(cs)|, cs)
    decreases |cs|
  {
    hide At, TypeName, TypeNames;
    var name, kind := Word(cs[0].name), Word(TypeName(cs[0].kind));
    var rest := if |cs| == 1 then [] else [Mark(',')] + ColumnLexemes(cs[1..]);
    assert ColumnLexemes(cs) == [name] + ([kind] + rest);
    AtParts(ls, i, [name], [kind] + rest);
    AtParts(ls, i + 1, [kind], rest);
    AtOne(ls, i, name);
    AtOne(ls, i + 1, kind);
    assert ColumnAt(ls, i, i + 2, cs[0]);
    if |cs| > 1 {
      AtParts(ls, i + 2, [Mark(',')], ColumnLexemes(cs[1..]));
      AtOne(ls, i + 2, Mark(','));
      ColumnsPlaced(ls, i + 3, cs[1..]);
    }
  }

  lemma BoundPlaced(ls: seq<Lexeme>, i: nat, n: uint64)
    requires Has(ls, i, Bare(Text.Decimal(n)))
    ensures BoundAt(ls, i, n)
  {
    hide Text.Decimal;
    DecimalValue(n);
    DecimalIsNumber(n);
    assert IsDigit(Text.Decimal(n)[0]);
  }

  lemma DecimalIsNumber(n: nat)
    ensures IsNumber(Text.Decimal(n)) && '.' !in Text.Decimal(n)
  {
    hide Text.Decimal;
    assert IsDigit(Text.Decimal(n)[0]);
  }

  lemma WherePlaced(ls: seq<Lexeme>, i: nat, w: Where, bare: set<string>)
    requires At(ls, i, WhereLexemes(w, bare)) && i + |WhereLexemes(w, bare)| == |ls|
    requires w.Equal? ==> LiteralOk(w.value)
    ensures WhereAt(ls, i, |ls|, w)
  {
    hide Text.Decimal, BoundAt, ValueAt, LiteralOk, LiteralLexeme;
    AtFirst(ls, i, WhereLexemes(w, bare), 0);
    match w {
      case Everything =>
      case Equal(_, value) =>
        assert ls[i + 0] == Word("where");
        ValuePlaced(ls, i + 3, value, bare);
      case TsBetween(lo, hi) =>
        assert ls[i + 0] == Word("where");
        BoundPlaced(ls, i + 3, lo);
        BoundPlaced(ls, i + 5, hi);
    }
  }

  lemma CreatePlaced(s: Statement, bare: set<string>)
    requires s.CreateTable? && WellFormed(s)
    ensures IsStatement(Lexemes(s, bare), s)
  {
    hide ColumnLexemes, ColumnsAt, IsName;
    var ls, part := Lexemes(s, bare), ColumnLexemes(s.columns);
    assert At(ls, 4, part);
    ColumnsPlaced(ls, 4, s.columns);
  }

  /** Where the parts of an INSERT lie. */
  lemma InsertLayout(s: Statement, bare: set<string>)
    requires s.Insert?
    ensures var ls, names, values := Lexemes(s, bare), InsertNames(s.names), InsertValues(s.values, bare);
            |ls| == 3 + |names| + |values| && Has(ls, 0, Word("insert")) && Has(ls, 1, Word("into")) &&
            Has(ls, 2, Word(s.table)) && At(ls, 3, names) && At(ls, 3 + |names|, values)
  {
    hide InsertNames, InsertValues, At;
    var ls, names, values := Lexemes(s, bare), InsertNames(s.names), InsertValues(s.values, bare);
    var front := [Word("insert"), Word("into"), Word(s.table)];
    JoinAssociates(front, names, values);
    WholeIsThere(ls);
    AtParts(ls, 0, front, names + values);
    AtParts(ls, 3, names, values);
  }

  lemma InsertPlaced(s: Statement, bare: set<string>)
    requires s.Insert? && WellFormed(s)
    ensures IsStatement(Lexemes(s, bare), s)
  {
    hide Lexemes, InsertNames, InsertValues, NamesAt, ValuesAt, IsName, LiteralOk, At;
    var ls := Lexemes(s, bare);
    InsertLayout(s, bare);
    if s.names == [] { NoNames(); } else { NamesInParens(ls, s.names); }
    ValuesInParens(ls, 3 + |InsertNames(s.names)|, s.values, bare);
  }

  lemma NoNames()
    ensures InsertNames([]) == []
  {
  }

  lemma WholeIsThere(ls: seq<Lexeme>)
    ensures At(ls, 0, ls)
  {
    assert ls[0..|ls|] == ls;
  }

  lemma NamesInParens(ls: seq<Lexeme>, names: seq<string>)
    requires names != [] && At(ls, 3, InsertNames(names))
    ensures |InsertNames(names)| == 2 * |names| + 1
    ensures Has(ls, 3, Mark('(')) && NamesAt(ls, 4, names) && Has(ls, 3 + 2 * |names|, Mark(')'))
  {
    hide NameLexemes, NamesAt, At;
    JoinAssociates([Mark('(')], NameLexemes(names), [Mark(')')]);
    AtParts(ls, 3, [Mark('(')], NameLexemes(names) + [Mark(')')]);
    AtParts(ls, 4, NameLexemes(names), [Mark(')')]);
    NamesPlaced(ls, 4, names);
    AtOne(ls, 3, Mark('('));
    AtOne(ls, 4 + |NameLexemes(names)|, Mark(')'));
  }

  lemma ValuesInParens(ls: seq<Lexeme>, k: nat, vs: seq<Literal>, bare: set<string>)
    requires vs != [] && At(ls, k, InsertValues(vs, bare)) && forall i | 0 <= i < |vs| :: LiteralOk(vs[i])
    ensures |InsertValues(vs, bare)| == 2 * |vs| + 2
    ensures Has(ls, k, Word("values")) && Has(ls, k + 1, Mark('(')) && ValuesAt(ls, k + 2, vs) &&
            Has(ls, k + 1 + 2 * |vs|, Mark(')'))
  {
    hide LiteralLexemes, ValuesAt, At, LiteralOk;
    var part := LiteralLexemes(vs, bare);
    JoinAssociates([Word("values"), Mark('(')], part, [Mark(')')]);
    AtParts(ls, k, [Word("values"), Mark('(')], part + [Mark(')')]);
    AtParts(ls, k + 2, part, [Mark(')')]);
    AtFirst(ls, k, [Word("values"), Mark('(')], 0);
    assert ls[k + 0] == Word("values");
    assert ls[k + 1] == [Word("values"), Mark('(')][1];
    ValuesPlaced(ls, k + 2, vs, bare);
    AtOne(ls, k + 2 + |part|, Mark(')'));
  }

  lemma SelectPlaced(s: Statement, bare: set<string>)
    requires s.Select? && WellFormed(s)
    ensures IsStatement(Lexemes(s, bare), s)
  {
    hide WhereLexemes, NameLexemes, NamesAt, WhereAt, IsName, LiteralOk;
    var ls, names := Lexemes(s, bare), Projection(s.projection);
    assert At(ls, 1, names) && At(ls, 3 + |names|, WhereLexemes(s.where, bare));
    assert ls[1 + |names|] == Word("from") && ls[2 + |names|] == Word(s.table);
    if s.projection != [] { NamesPlaced(ls, 1, s.projection); }
    WherePlaced(ls, 3 + |names|, s.where, bare);
  }

  lemma StatementPlaced(s: Statement, bare: set<string>)
    requires WellFormed(s)
    ensures IsStatement(Lexemes(s, bare), s)
  {
    hide IsStatement, Lexemes, WellFormed;
    match s {
      case CreateTable(_, _) => CreatePlaced(s, bare);
      case DropTable(_) => DropPlaced(s, bare);
      case Insert(_, _, _) => InsertPlaced(s, bare);
      case Select(_, _, _) => SelectPlaced(s, bare);
    }
  }

  lemma DropPlaced(s: Statement, bare: set<string>)
    requires s.DropTable?
    ensures IsStatement(Lexemes(s, bare), s)
  {
  }

  /* ---- and proper ones ---- */

  lemma {:induction false} NameLexemesOk(names: seq<string>)
    requires forall k | 0 <= k < |names| :: IsName(names[k])
    ensures AllOk(NameLexemes(names))
  {
    hide IsName;
    if names != [] { NameLexemesOk(names[1..]); }
  }

  lemma TypeIsName(t: ColumnType)
    ensures IsName(TypeName(t))
  {
  }

  lemma {:induction false} ColumnLexemesOk(cs: seq<Column>)
    requires forall k | 0 <= k < |cs| :: IsName(cs[k].name)
    ensures AllOk(ColumnLexemes(cs))
  {
    hide TypeName, IsName;
    if cs != [] {
      TypeIsName(cs[0].kind);
      ColumnLexemesOk(cs[1..]);
    }
  }

  lemma LiteralLexemeOk(v: Literal, bare: set<string>)
    ensures LexemeOk(LiteralLexeme(v, bare))
  {
    hide IsNumber;
  }

  lemma {:induction false} LiteralLexemesOk(vs: seq<Literal>, bare: set<string>)
    ensures AllOk(LiteralLexemes(vs, bare))
  {
    hide LexemeOk, LiteralLexeme;
    if vs != [] {
      LiteralLexemeOk(vs[0], bare);
      LiteralLexemesOk(vs[1..], bare);
      assert LexemeOk(Mark(',')) by { CommaOk(); }
    }
  }

  lemma CommaOk()
    ensures LexemeOk(Mark(','))
  {
  }

  lemma AllOkConcat(a: seq<Lexeme>, b: seq<Lexeme>)
    requires AllOk(a) && AllOk(b)
    ensures AllOk(a + b)
  {
    hide LexemeOk;
  }

  lemma WordsOk(table: string)
    requires IsName(table)
    ensures AllOk([Word("create"), Word("table"), Word(table), Mark('(')]) && AllOk([Mark(')')])
    ensures AllOk([Word("drop"), Word("table"), Word(table)]) && AllOk([Word("insert"), Word("into"), Word(table)])
    ensures AllOk([Word("values"), Mark('(')]) && AllOk([Word("select")]) && AllOk([Word("from"), Word(table)])
    ensures AllOk([Mark('(')]) && AllOk([Mark('*')]) && AllOk([])
  {
    KeywordsAreLower();
    hide Lower;
  }

  lemma WhereOk(w: Where, bare: set<string>)
    requires w.Equal? ==> IsName(w.column)
    ensures AllOk(WhereLexemes(w, bare))
  {
    KeywordsAreLower();
    assert Lower("__ts") == "__ts";
    hide Lower, Text.Decimal, IsNumber, LiteralLexeme;
    match w {
      case Everything =>
      case Equal(_, value) => LiteralLexemeOk(value, bare);
      case TsBetween(lo, hi) =>
        DecimalIsNumber(lo);
        DecimalIsNumber(hi);
    }
  }

  lemma LexemesOk(s: Statement, bare: set<string>)
    requires WellFormed(s)
    ensures AllOk(Lexemes(s, bare))
  {
    hide NameLexemes, ColumnLexemes, LiteralLexemes, WhereLexemes, IsName, AllOk, LiteralOk;
    WordsOk(s.table);
    match s {
      case CreateTable(table, columns) =>
        ColumnLexemesOk(columns);
        AllOkConcat([Word("create"), Word("table"), Word(table), Mark('(')], ColumnLexemes(columns));
        AllOkConcat([Word("create"), Word("table"), Word(table), Mark('(')] + ColumnLexemes(columns), [Mark(')')]);
      case DropTable(_) =>
      case Insert(table, names, values) =>
        NameLexemesOk(names);
        LiteralLexemesOk(values, bare);
        var head := [Word("insert"), Word("into"), Word(table)];
        AllOkConcat([Mark('(')], NameLexemes(names));
        AllOkConcat([Mark('(')] + NameLexemes(names), [Mark(')')]);
        AllOkConcat(head, InsertNames(names));
        AllOkConcat([Word("values"), Mark('(')], LiteralLexemes(values, bare));
        AllOkConcat([Word("values"), Mark('(')] + LiteralLexemes(values, bare), [Mark(')')]);
        AllOkConcat(head + InsertNames(names), InsertValues(values, bare));
      case Select(table, projection, where) =>
        NameLexemesOk(projection);
        WhereOk(where, bare);
        var head := [Word("select")] + Projection(projection);
        AllOkConcat([Word("select")], Projection(projection));
        AllOkConcat(head, [Word("from"), Word(table)]);
        AllOkConcat(head + [Word("from"), Word(table)], WhereLexemes(where, bare));
    }
  }

  /* ---- the theorems ---- */

  /** However a statement's numbers are written, with quotes or without, and wherever the blanks and the
      capitals are, it parses to the same tree. */
  lemma NumbersNeedNoQuotes(s: Statement, bare: set<string>, sql: string)
    requires WellFormed(s) && Spells(sql, Lexemes(s, bare))
    ensures ParseStatement(sql) == Ok(s)
  {
    hide ParseStatement, Lexemes, WellFormed, IsStatement, Spells, AllOk;
    LexemesOk(s, bare);
    StatementPlaced(s, bare);
    SpelledIsParsed(sql, Lexemes(s, bare), s);
  }

  /** Lexemes, each followed by a blank. */
  function Spelled(ls: seq<Lexeme>): string
  {
    if ls == [] then "" else Spelling(ls[0]) + (" " + Spelled(ls[1..]))
  }

  lemma LexemeStarts(l: Lexeme)
    requires LexemeOk(l)
    ensures Spelling(l) != "" && !IsSpace(Spelling(l)[0]) && Writes(Spelling(l), l)
  {
    hide Doubled;
  }

  lemma BlankEnds(l: Lexeme, rest: string)
    ensures Ends(l, " " + rest)
  {
  }

  lemma {:induction false} SpelledSpells(ls: seq<Lexeme>)
    requires AllOk(ls)
    ensures Spells(Spelled(ls), ls)
    decreases |ls|
  {
    hide Spelling, LexemeOk, Writes, Ends;
    if ls != [] {
      var s, n := Spelled(ls), |Spelling(ls[0])|;
      var rest := " " + Spelled(ls[1..]);
      LexemeStarts(ls[0]);
      BlankEnds(ls[0], Spelled(ls[1..]));
      CutWhereJoined(Spelling(ls[0]), rest);
      SpelledSpells(ls[1..]);
      assert rest[1..] == Spelled(ls[1..]);
      BlankBefore(rest, ls[1..]);
      SpellsStep(s, ls);
    }
  }

  /** The canonical text of a statement: every value but NULL between quotes. */
  function RenderStatement(s: Statement): string { Spelled(Lexemes(s, {})) }

  /** Parsing the canonical text of a well-formed statement gives the statement back. */
  lemma ParseUndoesRender(s: Statement)
    requires WellFormed(s)
    ensures ParseStatement(RenderStatement(s)) == Ok(s)
  {
    hide ParseStatement, Lexemes, WellFormed, Spells;
    LexemesOk(s, {});
    SpelledSpells(Lexemes(s, {}));
    NumbersNeedNoQuotes(s, {}, RenderStatement(s));
  }
}
