/** Whatever the parser returns is well formed, so parsing, rendering and parsing again changes nothing
    for any text the parser takes. */
module SqlImage {
  import opened SqlLexemes
  import opened SqlLexer
  import opened SqlParser
  import opened SqlGrammar
  import opened SqlRoundTrip

  lemma NameIsOk(ls: seq<Lexeme>, i: nat, name: string)
    requires AllOk(ls) && Has(ls, i, Word(name))
    ensures IsName(name)
  {
    hide IsName;
    assert LexemeOk(ls[i]);
  }

  lemma {:induction false} NamesAreOk(ls: seq<Lexeme>, i: nat, names: seq<string>)
    requires AllOk(ls) && NamesAt(ls, i, names)
    ensures forall k | 0 <= k < |names| :: IsName(names[k])
    decreases |names|
  {
    hide IsName, AllOk;
    NameIsOk(ls, i, names[0]);
    if |names| > 1 { NamesAreOk(ls, i + 2, names[1..]); }
  }

  lemma {:induction false} ColumnsAreOk(ls: seq<Lexeme>, i: nat, j: nat, cs: seq<Column>)
    requires AllOk(ls) && ColumnsAt(ls, i, j, cs)
    ensures cs != [] && forall k | 0 <= k < |cs| :: IsName(cs[k].name)
    decreases |cs|
  {
    hide IsName, AllOk;
    NameIsOk(ls, i, cs[0].name);
    if |cs| > 1 {
      var k: nat :| ColumnAt(ls, i, k, cs[0]) && Has(ls, k, Mark(',')) && ColumnsAt(ls, k + 1, j, cs[1..]);
      ColumnsAreOk(ls, k + 1, j, cs[1..]);
    }
  }

  lemma {:induction false} ValuesAreOk(ls: seq<Lexeme>, i: nat, vs: seq<Literal>)
    requires ValuesAt(ls, i, vs)
    ensures vs != [] && forall k | 0 <= k < |vs| :: LiteralOk(vs[k])
    decreases |vs|
  {
    if |vs| > 1 { ValuesAreOk(ls, i + 2, vs[1..]); }
  }

  lemma GrammarIsWellFormed(ls: seq<Lexeme>, n: nat, s: Statement)
    requires AllOk(ls) && StatementAt(ls, n, s)
    ensures WellFormed(s)
  {
    hide AllOk, IsName, NamesAt, ValuesAt, ColumnsAt, LiteralOk, BoundAt;
    match s {
      case CreateTable(table, columns) =>
        NameIsOk(ls, 2, table);
        ColumnsAreOk(ls, 4, n - 1, columns);
      case DropTable(table) => NameIsOk(ls, 2, table);
      case Insert(table, names, values) =>
        NameIsOk(ls, 2, table);
        if names != [] { NamesAreOk(ls, 4, names); }
        ValuesAreOk(ls, if names == [] then 5 else 6 + 2 * |names|, values);
      case Select(table, names, w) =>
        var k := if names == [] then 2 else 2 * |names|;
        NameIsOk(ls, k + 1, table);
        if names != [] { NamesAreOk(ls, 1, names); }
        if w.Equal? { EqualIsOk(ls, k + 2, n, w); }
    }
  }

  lemma EqualIsOk(ls: seq<Lexeme>, i: nat, n: nat, w: Where)
    requires AllOk(ls) && WhereAt(ls, i, n, w) && w.Equal?
    ensures IsName(w.column) && LiteralOk(w.value)
  {
    hide IsName, AllOk;
    NameIsOk(ls, i + 1, w.column);
  }

  lemma ParsedIsWellFormed(sql: string, s: Statement)
    requires ParseStatement(sql) == Ok(s)
    ensures WellFormed(s)
  {
    hide ParseStatement, WellFormed, AllOk, StatementAt, Spells;
    ParsesExactlyTheGrammar(sql, s);
    var ls :| AllOk(ls) && Spells(sql, ls) && IsStatement(ls, s);
    GrammarIsWellFormed(ls, if StatementAt(ls, |ls|, s) then |ls| else |ls| - 1, s);
  }

  /** The statements that come back from their rendering are exactly those the parser can return. */
  lemma RoundTripCoversTheParser(stmt: Statement)
    ensures (exists sql :: ParseStatement(sql) == Ok(stmt)) <==> WellFormed(stmt)
    ensures WellFormed(stmt) <==> ParseStatement(RenderStatement(stmt)) == Ok(stmt)
  {
    hide ParseStatement, WellFormed, RenderStatement;
    if WellFormed(stmt) { ParseUndoesRender(stmt); }
    forall sql | ParseStatement(sql) == Ok(stmt) ensures WellFormed(stmt) { ParsedIsWellFormed(sql, stmt); }
  }
}
