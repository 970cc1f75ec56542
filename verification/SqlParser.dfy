/** ChronoSQL's recursive-descent parser. */
module SqlParser {
  import opened Text
  import opened SqlLexer

  datatype ColumnType = INT | DOUBLE | STRING | BOOL

  datatype Column = Column(name: string, kind: ColumnType)

  /** A value as written; NULL carries no text. */
  datatype Literal = Literal(text: string, isNull: bool)

  datatype Where = Everything | Equal(column: string, value: Literal) | TsBetween(lo: uint64, hi: uint64)

  datatype Statement =
    | CreateTable(table: string, columns: seq<Column>)
    | DropTable(table: string)
    | Insert(table: string, names: seq<string>, values: seq<Literal>)
    | Select(table: string, projection: seq<string>, where: Where)

  function ColumnTypeToString(t: ColumnType): string
  {
    match t
    case INT => "INT"
    case DOUBLE => "DOUBLE"
    case STRING => "STRING"
    case BOOL => "BOOL"
  }

  function ColumnTypeFromString(s: string): Option<ColumnType>
  {
    var up := Upper(s);
    if up == "INT" || up == "INTEGER" || up == "BIGINT" then Some(INT)
    else if up == "DOUBLE" || up == "FLOAT" || up == "REAL" then Some(DOUBLE)
    else if up == "STRING" || up == "TEXT" || up == "VARCHAR" || up == "CHAR" then Some(STRING)
    else if up == "BOOL" || up == "BOOLEAN" then Some(BOOL)
    else None
  }

  lemma TypeRoundTrip(t: ColumnType)
    ensures ColumnTypeFromString(ColumnTypeToString(t)) == Some(t)
  {
    assert Upper(ColumnTypeToString(t)) == ColumnTypeToString(t);
  }

  predicate IEquals(a: string, b: string) { Lower(a) == Lower(b) }

  /** `std::stoull` of an Integer token: a sign is taken, a minus wraps around, and a number past
      UINT64_MAX is out of range. */
  function Stoull(s: string): Option<uint64>
  {
    var digits := if s != "" && IsSign(s[0]) then s[1..] else s;
    if digits == "" || !AllDigits(digits) || ValueOf(digits) > UINT64_MAX then None
    else if s[0] == '-' && ValueOf(digits) > 0 then Some(UINT64_MAX + 1 - ValueOf(digits))
    else Some(ValueOf(digits))
  }

  /* ---- the grammar over tokens ---- */

  /** A phrase and the index after it, or the offset of the token that does not fit. */
  datatype Phrase<+T> = Good(value: T, next: nat) | Bad(at: nat)

  predicate Keyword(t: Token, kw: string) { t.kind == Ident && IEquals(t.text, kw) }

  function ParseKeyword(toks: seq<Token>, i: nat, kw: string): (r: Phrase<()>)
    requires i < |toks|
    ensures r.Good? ==> r.next == i + 1 && toks[i].kind != End
  {
    if Keyword(toks[i], kw) then Good((), i + 1) else Bad(toks[i].pos)
  }

  function ParseIdent(toks: seq<Token>, i: nat): (r: Phrase<string>)
    requires i < |toks|
    ensures r.Good? ==> r.next == i + 1 && toks[i].kind != End
  {
    if toks[i].kind == Ident then Good(toks[i].text, i + 1) else Bad(toks[i].pos)
  }

  function ParseKind(toks: seq<Token>, i: nat, kind: Kind): (r: Phrase<()>)
    requires i < |toks| && kind != End
    ensures r.Good? ==> r.next == i + 1 && toks[i].kind != End
  {
    if toks[i].kind == kind then Good((), i + 1) else Bad(toks[i].pos)
  }

  /** Past a non-End token there is another. */
  lemma Past(toks: seq<Token>, i: nat)
    requires Ended(toks) && i < |toks| && toks[i].kind != End
    ensures i + 1 < |toks|
  {
  }

  /** A parenthesised length after a type is read and ignored. */
  function SkipLength(toks: seq<Token>, i: nat): (r: Phrase<()>)
    requires Ended(toks) && i < |toks|
    ensures r.Good? ==> i <= r.next < |toks|
  {
    if toks[i].kind != LParen then Good((), i)
    else if toks[i + 1].kind != Integer then Bad(toks[i + 1].pos)
    else ParseKind(toks, i + 2, RParen)
  }

  /** The type after a column name; STRING when there is none. */
  function ParseType(toks: seq<Token>, i: nat): (r: Phrase<ColumnType>)
    requires Ended(toks) && i < |toks|
    ensures r.Good? ==> i <= r.next < |toks|
  {
    if toks[i].kind != Ident then Good(STRING, i)
    else
      var length := SkipLength(toks, i + 1);
      if length.Bad? then Bad(length.at)
      else
        match ColumnTypeFromString(toks[i].original)
        case Some(t) => Good(t, length.next)
        case None => Bad(toks[i].pos)
  }

  function ParseColumn(toks: seq<Token>, i: nat): (r: Phrase<Column>)
    requires Ended(toks) && i < |toks|
    ensures r.Good? ==> i < r.next < |toks|
  {
    var name := ParseIdent(toks, i);
    if name.Bad? then Bad(name.at)
    else
      var kind := ParseType(toks, i + 1);
      if kind.Bad? then Bad(kind.at) else Good(Column(name.value, kind.value), kind.next)
  }

  function ParseColumns(toks: seq<Token>, i: nat): (r: Phrase<seq<Column>>)
    requires Ended(toks) && i < |toks|
    ensures r.Good? ==> i < r.next < |toks|
    decreases |toks| - i
  {
    var first := ParseColumn(toks, i);
    if first.Bad? then Bad(first.at)
    else if toks[first.next].kind != Comma then Good([first.value], first.next)
    else Joining([first.value], ParseColumns(toks, first.next + 1))
  }

  function ParseNames(toks: seq<Token>, i: nat): (r: Phrase<seq<string>>)
    requires Ended(toks) && i < |toks|
    ensures r.Good? ==> i < r.next < |toks|
    decreases |toks| - i
  {
    var first := ParseIdent(toks, i);
    if first.Bad? then Bad(first.at)
    else if toks[first.next].kind != Comma then Good([first.value], first.next)
    else Joining([first.value], ParseNames(toks, first.next + 1))
  }

  function ParseLiteral(toks: seq<Token>, i: nat): (r: Phrase<Literal>)
    requires i < |toks|
    ensures r.Good? ==> r.next == i + 1 && toks[i].kind != End
  {
    if Keyword(toks[i], "null") then Good(Literal("", true), i + 1)
    else if toks[i].kind in {StringLit, Integer, Decimal} then Good(Literal(toks[i].text, false), i + 1)
    else Bad(toks[i].pos)
  }

  function ParseLiterals(toks: seq<Token>, i: nat): (r: Phrase<seq<Literal>>)
    requires Ended(toks) && i < |toks|
    ensures r.Good? ==> i < r.next < |toks|
    decreases |toks| - i
  {
    var first := ParseLiteral(toks, i);
    if first.Bad? then Bad(first.at)
    else if toks[first.next].kind != Comma then Good([first.value], first.next)
    else Joining([first.value], ParseLiterals(toks, first.next + 1))
  }

  /** Items already read, then the rest of the list. */
  function Joining<T>(items: seq<T>, rest: Phrase<seq<T>>): Phrase<seq<T>>
  {
    if rest.Bad? then rest else Good(items + rest.value, rest.next)
  }

  lemma JoiningOne<T>(items: seq<T>, x: T, rest: Phrase<seq<T>>)
    ensures Joining(items, Joining([x], rest)) == Joining(items + [x], rest)
  {
    if rest.Good? { assert items + ([x] + rest.value) == (items + [x]) + rest.value; }
  }

  lemma JoiningNone<T>(r: Phrase<seq<T>>)
    ensures Joining([], r) == r
  {
    if r.Good? { assert [] + r.value == r.value; }
  }

  function ParseCreate(toks: seq<Token>, i: nat): (r: Phrase<Statement>)
    requires Ended(toks) && i < |toks|
    ensures r.Good? ==> i < r.next < |toks|
  {
    var kw := ParseKeyword(toks, i, "table");
    if kw.Bad? then Bad(kw.at)
    else
      var table := ParseIdent(toks, i + 1);
      if table.Bad? then Bad(table.at)
      else
        var open := ParseKind(toks, i + 2, LParen);
        if open.Bad? then Bad(open.at)
        else
          var columns := ParseColumns(toks, i + 3);
          if columns.Bad? then Bad(columns.at)
          else
            var close := ParseKind(toks, columns.next, RParen);
            if close.Bad? then Bad(close.at) else Good(CreateTable(table.value, columns.value), close.next)
  }

  function ParseDrop(toks: seq<Token>, i: nat): (r: Phrase<Statement>)
    requires Ended(toks) && i < |toks|
    ensures r.Good? ==> i < r.next < |toks|
  {
    var kw := ParseKeyword(toks, i, "table");
    if kw.Bad? then Bad(kw.at)
    else
      var table := ParseIdent(toks, i + 1);
      if table.Bad? then Bad(table.at) else Good(DropTable(table.value), table.next)
  }

  /** The optional column list of an INSERT. */
  function ParseInsertNames(toks: seq<Token>, i: nat): (r: Phrase<seq<string>>)
    requires Ended(toks) && i < |toks|
    ensures r.Good? ==> i <= r.next < |toks|
  {
    if toks[i].kind != LParen then Good([], i)
    else
      var names := ParseNames(toks, i + 1);
      if names.Bad? then names
      else
        var close := ParseKind(toks, names.next, RParen);
        if close.Bad? then Bad(close.at) else Good(names.value, close.next)
  }

  function ParseInsertValues(toks: seq<Token>, i: nat): (r: Phrase<seq<Literal>>)
    requires Ended(toks) && i < |toks|
    ensures r.Good? ==> i < r.next < |toks|
  {
    var kw := ParseKeyword(toks, i, "values");
    if kw.Bad? then Bad(kw.at)
    else
      var open := ParseKind(toks, i + 1, LParen);
      if open.Bad? then Bad(open.at)
      else
        var values := ParseLiterals(toks, i + 2);
        if values.Bad? then values
        else
          var close := ParseKind(toks, values.next, RParen);
          if close.Bad? then Bad(close.at) else Good(values.value, close.next)
  }

  function ParseInsert(toks: seq<Token>, i: nat): (r: Phrase<Statement>)
    requires Ended(toks) && i < |toks|
    ensures r.Good? ==> i < r.next < |toks|
  {
    var kw := ParseKeyword(toks, i, "into");
    if kw.Bad? then Bad(kw.at)
    else
      var table := ParseIdent(toks, i + 1);
      if table.Bad? then Bad(table.at)
      else
        var names := ParseInsertNames(toks, i + 2);
        if names.Bad? then Bad(names.at)
        else
          var values := ParseInsertValues(toks, names.next);
          if values.Bad? then Bad(values.at)
          else if names.value != [] && |names.value| != |values.value| then Bad(toks[values.next].pos)
          else Good(Insert(table.value, names.value, values.value), values.next)
  }

  function ParseProjection(toks: seq<Token>, i: nat): (r: Phrase<seq<string>>)
    requires Ended(toks) && i < |toks|
    ensures r.Good? ==> i < r.next < |toks|
  {
    if toks[i].kind == Star then Good([], i + 1) else ParseNames(toks, i)
  }

  /** `__ts BETWEEN n AND n`, from the first bound on. */
  function ParseBounds(toks: seq<Token>, i: nat): (r: Phrase<Where>)
    requires Ended(toks) && i < |toks|
    ensures r.Good? ==> i < r.next < |toks|
  {
    if toks[i].kind != Integer then Bad(toks[i].pos)
    else
      var and := ParseKeyword(toks, i + 1, "and");
      if and.Bad? then Bad(and.at)
      else if toks[i + 2].kind != Integer then Bad(toks[i + 2].pos)
      else
        match (Stoull(toks[i].text), Stoull(toks[i + 2].text))
        case (Some(lo), Some(hi)) => Good(TsBetween(lo, hi), i + 3)
        case _ => Bad(toks[i].pos)
  }

  function ParseEquality(toks: seq<Token>, i: nat): (r: Phrase<Where>)
    requires Ended(toks) && i < |toks|
    ensures r.Good? ==> i < r.next < |toks|
  {
    var column := ParseIdent(toks, i);
    if column.Bad? then Bad(column.at)
    else
      var equals := ParseKind(toks, i + 1, Equals);
      if equals.Bad? then Bad(equals.at)
      else
        var value := ParseLiteral(toks, i + 2);
        if value.Bad? then Bad(value.at) else Good(Equal(column.value, value.value), value.next)
  }

  predicate AsksBetween(toks: seq<Token>, i: nat)
    requires i < |toks|
  {
    toks[i].kind == Ident && toks[i].text == "__ts" && i + 1 < |toks| && Keyword(toks[i + 1], "between")
  }

  function ParseWhere(toks: seq<Token>, i: nat): (r: Phrase<Where>)
    requires Ended(toks) && i < |toks|
    ensures r.Good? ==> i <= r.next < |toks|
  {
    if !Keyword(toks[i], "where") then Good(Everything, i)
    else if AsksBetween(toks, i + 1) then ParseBounds(toks, i + 3)
    else ParseEquality(toks, i + 1)
  }

  function ParseSelect(toks: seq<Token>, i: nat): (r: Phrase<Statement>)
    requires Ended(toks) && i < |toks|
    ensures r.Good? ==> i < r.next < |toks|
  {
    var projection := ParseProjection(toks, i);
    if projection.Bad? then Bad(projection.at)
    else
      var kw := ParseKeyword(toks, projection.next, "from");
      if kw.Bad? then Bad(kw.at)
      else
        var table := ParseIdent(toks, kw.next);
        if table.Bad? then Bad(table.at)
        else
          var where := ParseWhere(toks, table.next);
          if where.Bad? then Bad(where.at)
          else Good(Select(table.value, projection.value, where.value), where.next)
  }

  function ParseBody(toks: seq<Token>): (r: Phrase<Statement>)
    requires Ended(toks)
    ensures r.Good? ==> 0 < r.next < |toks|
  {
    if toks[0].kind != Ident then Bad(toks[0].pos)
    else if IEquals(toks[0].text, "create") then ParseCreate(toks, 1)
    else if IEquals(toks[0].text, "drop") then ParseDrop(toks, 1)
    else if IEquals(toks[0].text, "insert") then ParseInsert(toks, 1)
    else if IEquals(toks[0].text, "select") then ParseSelect(toks, 1)
    else Bad(toks[0].pos)
  }

  /** A statement, an optional semicolon, and nothing else. */
  function ParseTokens(toks: seq<Token>): Result<Statement>
    requires Ended(toks)
  {
    var body := ParseBody(toks);
    if body.Bad? then Error(body.at)
    else
      var end := if toks[body.next].kind == Semicolon then body.next + 1 else body.next;
      if toks[end].kind == End then Ok(body.value) else Error(toks[end].pos)
  }

  function ParseStatement(sql: string): Result<Statement>
  {
    var toks :- Tokens(sql, 0);
    TokensEnd(sql, 0);
    ParseTokens(toks)
  }

  /* ---- the class ---- */

  /** What a parser method did, against the phrase it stands for. */
  predicate Did<T(==)>(phrase: Phrase<T>, r: Result<T>, idx: nat)
  {
    match phrase
    case Good(v, next) => r == Ok(v) && idx == next
    case Bad(at) => r == Error(at)
  }

  class Parser {
    const toks: seq<Token>
    var idx: nat

    constructor (toks: seq<Token>)
      ensures this.toks == toks && idx == 0
    {
      this.toks := toks;
      idx := 0;
    }

    method ExpectKeyword(kw: string) returns (r: Result<()>)
      requires idx < |toks|
      modifies this
      ensures Did(ParseKeyword(toks, old(idx), kw), r, idx)
    {
      if !Keyword(toks[idx], kw) { return Error(toks[idx].pos); }
      idx := idx + 1;
      r := Ok(());
    }

    method ExpectIdent() returns (r: Result<string>)
      requires idx < |toks|
      modifies this
      ensures Did(ParseIdent(toks, old(idx)), r, idx)
    {
      if toks[idx].kind != Ident { return Error(toks[idx].pos); }
      idx := idx + 1;
      r := Ok(toks[idx - 1].text);
    }

    method Expect(kind: Kind) returns (r: Result<()>)
      requires idx < |toks| && kind != End
      modifies this
      ensures Did(ParseKind(toks, old(idx), kind), r, idx)
    {
      if toks[idx].kind != kind { return Error(toks[idx].pos); }
      idx := idx + 1;
      r := Ok(());
    }

    method ReadColumn() returns (r: Result<Column>)
      requires Ended(toks) && idx < |toks|
      modifies this
      ensures Did(ParseColumn(toks, old(idx)), r, idx)
    {
      var name :- ExpectIdent();
      var kind := STRING;
      if toks[idx].kind == Ident {
        var at := idx;
        idx := idx + 1;
        if toks[idx].kind == LParen {
          idx := idx + 1;
          if toks[idx].kind != Integer { return Error(toks[idx].pos); }
          idx := idx + 1;
          var _ :- Expect(RParen);
        }
        var resolved := ColumnTypeFromString(toks[at].original);
        if resolved.None? { return Error(toks[at].pos); }
        kind := resolved.value;
      }
      r := Ok(Column(name, kind));
    }

    method ReadColumns() returns (r: Result<seq<Column>>)
      requires Ended(toks) && idx < |toks|
      modifies this
      ensures Did(ParseColumns(toks, old(idx)), r, idx)
    {
      hide ParseColumn;
      var out := [];
      ghost var all := ParseColumns(toks, idx);
      JoiningNone(all);
      while true
        invariant idx < |toks|
        invariant all == Joining(out, ParseColumns(toks, idx))
        decreases |toks| - idx
      {
        var start := idx;
        var column :- ReadColumn();
        if toks[idx].kind == Comma {
          JoiningOne(out, column, ParseColumns(toks, idx + 1));
          out := out + [column];
          idx := idx + 1;
          continue;
        }
        out := out + [column];
        break;
      }
      r := Ok(out);
    }

    method ReadNames() returns (r: Result<seq<string>>)
      requires Ended(toks) && idx < |toks|
      modifies this
      ensures Did(ParseNames(toks, old(idx)), r, idx)
    {
      hide ParseIdent;
      var out := [];
      ghost var all := ParseNames(toks, idx);
      JoiningNone(all);
      while true
        invariant idx < |toks|
        invariant all == Joining(out, ParseNames(toks, idx))
        decreases |toks| - idx
      {
        var name :- ExpectIdent();
        if toks[idx].kind == Comma {
          JoiningOne(out, name, ParseNames(toks, idx + 1));
          out := out + [name];
          idx := idx + 1;
          continue;
        }
        out := out + [name];
        break;
      }
      r := Ok(out);
    }

    method ReadLiteral() returns (r: Result<Literal>)
      requires idx < |toks|
      modifies this
      ensures Did(ParseLiteral(toks, old(idx)), r, idx)
    {
      var v := toks[idx];
      if v.kind == Ident && IEquals(v.text, "null") {
        idx := idx + 1;
        return Ok(Literal("", true));
      }
      if v.kind == StringLit || v.kind == Integer || v.kind == Decimal {
        idx := idx + 1;
        return Ok(Literal(v.text, false));
      }
      r := Error(v.pos);
    }

    method ReadLiterals() returns (r: Result<seq<Literal>>)
      requires Ended(toks) && idx < |toks|
      modifies this
      ensures Did(ParseLiterals(toks, old(idx)), r, idx)
    {
      hide ParseLiteral;
      var out := [];
      ghost var all := ParseLiterals(toks, idx);
      JoiningNone(all);
      while true
        invariant idx < |toks|
        invariant all == Joining(out, ParseLiterals(toks, idx))
        decreases |toks| - idx
      {
        var value :- ReadLiteral();
        if toks[idx].kind == Comma {
          JoiningOne(out, value, ParseLiterals(toks, idx + 1));
          out := out + [value];
          idx := idx + 1;
          continue;
        }
        out := out + [value];
        break;
      }
      r := Ok(out);
    }

    method ReadCreate() returns (r: Result<Statement>)
      requires Ended(toks) && idx < |toks|
      modifies this
      ensures Did(ParseCreate(toks, old(idx)), r, idx)
    {
      hide ParseColumns;
      var _ :- ExpectKeyword("table");
      var table :- ExpectIdent();
      var _ :- Expect(LParen);
      var columns :- ReadColumns();
      var _ :- Expect(RParen);
      r := Ok(CreateTable(table, columns));
    }

    method ReadDrop() returns (r: Result<Statement>)
      requires Ended(toks) && idx < |toks|
      modifies this
      ensures Did(ParseDrop(toks, old(idx)), r, idx)
    {
      var _ :- ExpectKeyword("table");
      var table :- ExpectIdent();
      r := Ok(DropTable(table));
    }

    method ReadInsertNames() returns (r: Result<seq<string>>)
      requires Ended(toks) && idx < |toks|
      modifies this
      ensures Did(ParseInsertNames(toks, old(idx)), r, idx)
    {
      hide ParseNames;
      if toks[idx].kind != LParen { return Ok([]); }
      idx := idx + 1;
      var names :- ReadNames();
      var _ :- Expect(RParen);
      r := Ok(names);
    }

    method ReadInsertValues() returns (r: Result<seq<Literal>>)
      requires Ended(toks) && idx < |toks|
      modifies this
      ensures Did(ParseInsertValues(toks, old(idx)), r, idx)
    {
      hide ParseLiterals;
      var _ :- ExpectKeyword("values");
      var _ :- Expect(LParen);
      var values :- ReadLiterals();
      var _ :- Expect(RParen);
      r := Ok(values);
    }

    method ReadInsert() returns (r: Result<Statement>)
      requires Ended(toks) && idx < |toks|
      modifies this
      ensures Did(ParseInsert(toks, old(idx)), r, idx)
    {
      hide ParseInsertNames, ParseInsertValues;
      var _ :- ExpectKeyword("into");
      var table :- ExpectIdent();
      var names :- ReadInsertNames();
      var values :- ReadInsertValues();
      if names != [] && |names| != |values| { return Error(toks[idx].pos); }
      r := Ok(Insert(table, names, values));
    }

    method ReadWhere() returns (r: Result<Where>)
      requires Ended(toks) && idx < |toks|
      modifies this
      ensures Did(ParseWhere(toks, old(idx)), r, idx)
    {
      hide ParseLiteral, Stoull;
      if !Keyword(toks[idx], "where") { return Ok(Everything); }
      idx := idx + 1;
      if toks[idx].kind != Ident { return Error(toks[idx].pos); }
      if toks[idx].text == "__ts" && idx + 1 < |toks| && Keyword(toks[idx + 1], "between") {
        idx := idx + 2;
        var lo := toks[idx];
        if lo.kind != Integer { return Error(lo.pos); }
        idx := idx + 1;
        var _ :- ExpectKeyword("and");
        var hi := toks[idx];
        if hi.kind != Integer { return Error(hi.pos); }
        idx := idx + 1;
        match (Stoull(lo.text), Stoull(hi.text)) {
          case (Some(l), Some(h)) => return Ok(TsBetween(l, h));
          case _ => return Error(lo.pos);
        }
      }
      var column := toks[idx].text;
      idx := idx + 1;
      var _ :- Expect(Equals);
      var value :- ReadLiteral();
      r := Ok(Equal(column, value));
    }

    method ReadSelect() returns (r: Result<Statement>)
      requires Ended(toks) && idx < |toks|
      modifies this
      ensures Did(ParseSelect(toks, old(idx)), r, idx)
    {
      hide ParseNames, ParseWhere;
      var projection := [];
      if toks[idx].kind == Star {
        idx := idx + 1;
      } else {
        projection :- ReadNames();
      }
      var _ :- ExpectKeyword("from");
      var table :- ExpectIdent();
      var where :- ReadWhere();
      r := Ok(Select(table, projection, where));
    }

    method Parse() returns (r: Result<Statement>)
      requires Ended(toks) && idx == 0
      modifies this
      ensures r == ParseTokens(toks)
      ensures r.Ok? ==> idx == |toks| - 1
    {
      hide ParseCreate, ParseDrop, ParseInsert, ParseSelect;
      var kw := toks[idx];
      if kw.kind != Ident { return Error(kw.pos); }
      var out: Statement;
      idx := idx + 1;
      if IEquals(kw.text, "create") {
        out :- ReadCreate();
      } else if IEquals(kw.text, "drop") {
        out :- ReadDrop();
      } else if IEquals(kw.text, "insert") {
        out :- ReadInsert();
      } else if IEquals(kw.text, "select") {
        out :- ReadSelect();
      } else {
        return Error(kw.pos);
      }
      if toks[idx].kind == Semicolon {
        idx := idx + 1;
      }
      if toks[idx].kind != End { return Error(toks[idx].pos); }
      r := Ok(out);
    }
  }

  method ParseSql(sql: string) returns (r: Result<Statement>)
    ensures r == ParseStatement(sql)
  {
    var tokenizer := new Tokenizer(sql);
    var toks :- tokenizer.Tokenize();
    var parser := new Parser(toks);
    r := parser.Parse();
  }
}
