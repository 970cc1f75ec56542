/** The JSON a ChronoSQL row is stored as. */
module SqlRows {
  import opened Text
  import opened Json
  import opened SqlSchema

  type Values = map<string, string>

  /* ---- the order of a std::map ---- */

  /** `std::string`'s order: byte by byte, and a prefix comes first. */
  predicate AtMost(a: string, b: string)
  {
    a == "" || (b != "" && (a[0] < b[0] || (a[0] == b[0] && AtMost(a[1..], b[1..]))))
  }

  lemma {:induction false} OneIsAtMost(a: string, b: string)
    ensures AtMost(a, b) || AtMost(b, a)
  {
    if a != "" && b != "" && a[0] == b[0] { OneIsAtMost(a[1..], b[1..]); }
  }

  lemma {:induction false} AtMostBothWays(a: string, b: string)
    requires AtMost(a, b) && AtMost(b, a)
    ensures a == b
  {
    if a != "" {
      AtMostBothWays(a[1..], b[1..]);
      assert a == [a[0]] + a[1..] && b == [b[0]] + b[1..];
    }
  }

  lemma {:induction false} AtMostChains(a: string, b: string, c: string)
    requires AtMost(a, b) && AtMost(b, c)
    ensures AtMost(a, c)
  {
    if a != "" && a[0] == b[0] == c[0] { AtMostChains(a[1..], b[1..], c[1..]); }
  }

  predicate IsLeast(k: string, keys: set<string>)
  {
    k in keys && forall j | j in keys :: AtMost(k, j)
  }

  lemma {:induction false} SomeLeast(keys: set<string>)
    requires keys != {}
    ensures exists k :: IsLeast(k, keys)
  {
    hide AtMost;
    var x :| x in keys;
    var rest := keys - {x};
    if rest == {} {
      OneIsAtMost(x, x);
      assert keys == {x};
      assert IsLeast(x, keys);
    } else {
      SomeLeast(rest);
      var y :| IsLeast(y, rest);
      OneIsAtMost(x, x);
      OneIsAtMost(x, y);
      if AtMost(x, y) {
        forall j | j in rest ensures AtMost(x, j) { AtMostChains(x, y, j); }
        assert IsLeast(x, keys);
      } else {
        assert IsLeast(y, keys);
      }
    }
  }

  function Least(keys: set<string>): (k: string)
    requires keys != {}
    ensures IsLeast(k, keys)
  {
    SomeLeast(keys);
    LeastIsUnique(keys);
    var k :| k in keys && IsLeast(k, keys);
    k
  }

  lemma LeastIsUnique(keys: set<string>)
    ensures forall a, b | IsLeast(a, keys) && IsLeast(b, keys) :: a == b
  {
    hide AtMost;
    forall a, b | IsLeast(a, keys) && IsLeast(b, keys) ensures a == b { AtMostBothWays(a, b); }
  }

  /** The order in which a `std::map` is walked. */
  function InOrder(keys: set<string>): (s: seq<string>)
    ensures forall k :: k in s <==> k in keys
  {
    if keys == {} then [] else var k := Least(keys); [k] + InOrder(keys - {k})
  }

  /* ---- the codec ---- */

  /** The members of the object, both texts cut at their first NUL. */
  function MembersOf(keys: seq<string>, row: Values): (r: seq<Field>)
    requires forall i | 0 <= i < |keys| :: keys[i] in row
  {
    seq(|keys|, i requires 0 <= i < |keys| => Field(CStr(keys[i]), JString(CStr(row[keys[i]]))))
  }

  function EncodeRow(row: Values): string
  {
    Render(JObject(MembersOf(InOrder(row.Keys), row)), true)
  }

  /** A value that is not a string is kept as its JSON text. */
  function ValueText(v: Json): string { if v.JString? then CStr(v.text) else Render(v, true) }

  /** Keys are C strings too; a repeated member has its last value. */
  function ReadMembers(fields: seq<Field>): Values
  {
    if fields == [] then map[]
    else ReadMembers(fields[..|fields| - 1])[CStr(fields[|fields| - 1].key) := ValueText(fields[|fields| - 1].value)]
  }

  /** None where `decodeRow` throws. */
  function DecodeRow(payload: string): Option<Values>
  {
    match ParseValue(payload)
    case Got(JObject(fields), _) => Some(ReadMembers(fields))
    case _ => None
  }

  function CutListed(keys: seq<string>, row: Values): Values
    requires forall i | 0 <= i < |keys| :: keys[i] in row
  {
    map k | k in keys :: CStr(row[k])
  }

  function CutValues(row: Values): Values { map k | k in row :: CStr(row[k]) }

  lemma {:induction false} MembersReadBack(keys: seq<string>, row: Values)
    requires forall i | 0 <= i < |keys| :: keys[i] in row && NulFree(keys[i])
    ensures ReadMembers(MembersOf(keys, row)) == CutListed(keys, row)
  {
    hide CStr, NulFree;
    if keys != [] {
      var n := |keys| - 1;
      MembersReadBack(keys[..n], row);
      var fields := MembersOf(keys, row);
      assert fields[..n] == MembersOf(keys[..n], row);
      CStrOfNulFree(keys[n]);
      assert CStr(CStr(keys[n])) == keys[n];
      CStrNulFree(row[keys[n]]);
      CStrOfNulFree(CStr(row[keys[n]]));
      assert keys == keys[..n] + [keys[n]];
    }
  }

  lemma UncutExactly(row: Values)
    ensures CutValues(row) == row <==> forall k | k in row :: NulFree(row[k])
  {
    hide CStr, NulFree;
    forall k | k in row ensures CStr(row[k]) == row[k] <==> NulFree(row[k]) { CStrNulFree(row[k]); }
    assert CutValues(row) == row <==> forall k | k in row :: CutValues(row)[k] == row[k];
  }

  /** A row with NUL-free column names comes back with its values cut at their first NUL, so it comes
      back as itself exactly when they hold none. */
  lemma RowComesBackExactly(row: Values)
    requires forall k | k in row :: NulFree(k)
    ensures DecodeRow(EncodeRow(row)) == Some(CutValues(row))
    ensures DecodeRow(EncodeRow(row)) == Some(row) <==> forall k | k in row :: NulFree(row[k])
  {
    hide ParseValue, Render, ReadMembers, MembersOf, NulFree, InOrder, CStr;
    var keys := InOrder(row.Keys);
    var fields := MembersOf(keys, row);
    assert EncodeRow(row) + "" == EncodeRow(row);
    ParseUndoesRender(JObject(fields), true, "");
    MembersReadBack(keys, row);
    assert CutListed(keys, row) == CutValues(row);
    UncutExactly(row);
  }
}
