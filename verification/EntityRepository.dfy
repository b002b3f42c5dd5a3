/**
 The two insert paths of the entity repository: `insert` renders literals into the text, `insertPS`
 writes placeholders and lets `SybPreparedStatement` fill them in.
 */
module EntityRepository {
  import opened Text
  import opened SqlLiterals
  import opened Placeholders
  import opened SybPreparedStatements

  /** A double prints differently through a stream than through `to_string`; other types are never bound. */
  datatype Field =
    | IntField(value: int)
    | TextField(text: string)
    | DoubleField(streamed: string, printed: string)
    | OtherField(streamed: string)

  datatype Column = Column(name: string, field: Field)

  datatype Entity = Entity(tableName: string, primaryKey: string, columns: seq<Column>)

  function NonKey(columns: seq<Column>, key: string): seq<Column> {
    if columns == [] then [] else
    var before, last := NonKey(columns[..|columns| - 1], key), columns[|columns| - 1];
    if last.name == key then before else before + [last]
  }

  function Names(columns: seq<Column>): seq<string> {
    seq(|columns|, i requires 0 <= i < |columns| => columns[i].name)
  }

  /** What `buildValuesList` writes. */
  function Literal(f: Field): string {
    match f
    case IntField(value) => IntText(value)
    case TextField(text) => "'" + Escaped(text) + "'"
    case DoubleField(streamed, _) => streamed
    case OtherField(streamed) => streamed
  }

  function Literals(columns: seq<Column>): seq<string> {
    seq(|columns|, i requires 0 <= i < |columns| => Literal(columns[i].field))
  }

  /** What `bindParameter` makes the statement store, if anything. */
  function BoundText(f: Field): seq<string> {
    match f
    case IntField(value) => [IntText(value)]
    case TextField(text) => [Quoted(text)]
    case DoubleField(_, printed) => [printed]
    case OtherField(_) => []
  }

  function BoundTexts(columns: seq<Column>): seq<string> {
    if columns == [] then [] else BoundTexts(columns[..|columns| - 1]) + BoundText(columns[|columns| - 1].field)
  }

  function InsertSQL(e: Entity): string {
    var columns := NonKey(e.columns, e.primaryKey);
    InsertText(e.tableName, Names(columns), Literals(columns))
  }

  function InsertPSSQL(e: Entity): string {
    var columns := NonKey(e.columns, e.primaryKey);
    FinalSQL(InsertText(e.tableName, Names(columns), Markers(|columns|)), BoundTexts(columns))
  }

  // ---- the builders -------------------------------------------------------------------------

  /** Writes the separator unless this is the first item, then the item, and clears the flag. */
  function ListItem(oss: string, first: bool, item: string): string {
    (if first then oss else oss + Comma) + item
  }

  method BuildColumnList(oss: string, col: Column, first: bool, key: string) returns (oss': string, first': bool)
    ensures (oss', first') == if col.name == key then (oss, first) else (ListItem(oss, first, col.name), false)
  {
    if col.name == key {
      return oss, first;
    }
    oss' := oss;
    if !first {
      oss' := oss' + ", ";
    }
    oss' := oss' + col.name;
    first' := false;
  }

  method BuildValuesList(oss: string, col: Column, first: bool, key: string) returns (oss': string, first': bool)
    ensures (oss', first') ==
            if col.name == key then (oss, first) else (ListItem(oss, first, Literal(col.field)), false)
  {
    if col.name == key {
      return oss, first;
    }
    oss' := oss;
    if !first {
      oss' := oss' + ", ";
    }
    match col.field {
      case TextField(text) =>
        var escaped := EscapeString(text);
        oss' := oss' + ("'" + escaped + "'");
      case IntField(value) => oss' := oss' + IntText(value);
      case DoubleField(streamed, _) => oss' := oss' + streamed;
      case OtherField(streamed) => oss' := oss' + streamed;
    }
    first' := false;
  }

  method BuildPlaceholderList(oss: string, col: Column, first: bool, paramIndex: nat, key: string)
    returns (oss': string, first': bool, paramIndex': nat)
    ensures (oss', first', paramIndex') ==
            if col.name == key then (oss, first, paramIndex)
            else (ListItem(oss, first, Placeholder(paramIndex)), false, paramIndex + 1)
  {
    if col.name == key {
      return oss, first, paramIndex;
    }
    oss' := oss;
    if !first {
      oss' := oss' + ", ";
    }
    oss' := oss' + ("$" + Decimal(paramIndex));
    paramIndex' := paramIndex + 1;
    first' := false;
  }

  method BindParameter(stmt: SybPreparedStatement, col: Column, paramIndex: nat, key: string)
    returns (paramIndex': nat)
    requires paramIndex == |stmt.params| + 1
    modifies stmt
    ensures stmt.params == old(stmt.params) + if col.name == key then [] else BoundText(col.field)
    ensures paramIndex' == |stmt.params| + 1
  {
    paramIndex' := paramIndex;
    if col.name == key {
      return;
    }
    match col.field {
      case IntField(value) =>
        var _ := stmt.BindInt(paramIndex, value);
        paramIndex' := paramIndex + 1;
      case DoubleField(_, printed) =>
        var _ := stmt.Store(paramIndex, printed);
        paramIndex' := paramIndex + 1;
      case TextField(text) =>
        var _ := stmt.BindString(paramIndex, text);
        paramIndex' := paramIndex + 1;
      case OtherField(_) =>
    }
  }

  lemma NonKeyStep(columns: seq<Column>, i: nat, key: string)
    requires i < |columns|
    ensures var before := NonKey(columns[..i], key);
            NonKey(columns[..i + 1], key) == if columns[i].name == key then before else before + [columns[i]]
  {
    assert columns[..i + 1][..i] == columns[..i];
  }

  lemma ListsSnoc(cs: seq<Column>, c: Column)
    ensures Names(cs + [c]) == Names(cs) + [c.name]
    ensures Literals(cs + [c]) == Literals(cs) + [Literal(c.field)]
    ensures BoundTexts(cs + [c]) == BoundTexts(cs) + BoundText(c.field)
  {
    assert (cs + [c])[..|cs|] == cs;
  }

  lemma ListGrows(items: seq<string>, item: string)
    ensures ListItem(Join(items), items == [], item) == Join(items + [item])
  {
    JoinSnoc(items, item);
  }

  method ColumnList(e: Entity) returns (oss: string)
    ensures oss == Join(Names(NonKey(e.columns, e.primaryKey)))
  {
    oss := "";
    var first := true;
    ghost var done := [];
    for i := 0 to |e.columns|
      invariant done == NonKey(e.columns[..i], e.primaryKey)
      invariant oss == Join(Names(done)) && first == (Names(done) == [])
    {
      NonKeyStep(e.columns, i, e.primaryKey);
      ListsSnoc(done, e.columns[i]);
      ListGrows(Names(done), e.columns[i].name);
      done := NonKey(e.columns[..i + 1], e.primaryKey);
      oss, first := BuildColumnList(oss, e.columns[i], first, e.primaryKey);
    }
    assert e.columns[..|e.columns|] == e.columns;
  }

  method ValuesList(e: Entity) returns (oss: string)
    ensures oss == Join(Literals(NonKey(e.columns, e.primaryKey)))
  {
    oss := "";
    var first := true;
    ghost var done := [];
    for i := 0 to |e.columns|
      invariant done == NonKey(e.columns[..i], e.primaryKey)
      invariant oss == Join(Literals(done)) && first == (Literals(done) == [])
    {
      NonKeyStep(e.columns, i, e.primaryKey);
      ListsSnoc(done, e.columns[i]);
      ListGrows(Literals(done), Literal(e.columns[i].field));
      done := NonKey(e.columns[..i + 1], e.primaryKey);
      oss, first := BuildValuesList(oss, e.columns[i], first, e.primaryKey);
    }
    assert e.columns[..|e.columns|] == e.columns;
  }

  method PlaceholderList(e: Entity) returns (oss: string)
    ensures oss == Join(Markers(|NonKey(e.columns, e.primaryKey)|))
  {
    oss := "";
    var first, paramIndex := true, 1;
    for i := 0 to |e.columns|
      invariant paramIndex == |NonKey(e.columns[..i], e.primaryKey)| + 1
      invariant oss == Join(Markers(paramIndex - 1)) && first == (Markers(paramIndex - 1) == [])
    {
      NonKeyStep(e.columns, i, e.primaryKey);
      MarkersSnoc(paramIndex - 1);
      ListGrows(Markers(paramIndex - 1), Placeholder(paramIndex));
      oss, first, paramIndex := BuildPlaceholderList(oss, e.columns[i], first, paramIndex, e.primaryKey);
    }
    assert e.columns[..|e.columns|] == e.columns;
  }

  method Insert(e: Entity) returns (sql: string)
    ensures sql == InsertSQL(e)
  {
    var columns := ColumnList(e);
    var values := ValuesList(e);
    sql := "INSERT INTO " + e.tableName + " (" + columns + ") VALUES (" + values + ")";
  }

  method InsertPS(e: Entity) returns (sql: string)
    ensures sql == InsertPSSQL(e)
  {
    var columns := ColumnList(e);
    var placeholders := PlaceholderList(e);
    var stmt := new SybPreparedStatement(
      "INSERT INTO " + e.tableName + " (" + columns + ") VALUES (" + placeholders + ")");
    var paramIndex := 1;
    for i := 0 to |e.columns|
      invariant stmt.params == BoundTexts(NonKey(e.columns[..i], e.primaryKey))
      invariant paramIndex == |stmt.params| + 1
    {
      NonKeyStep(e.columns, i, e.primaryKey);
      ListsSnoc(NonKey(e.columns[..i], e.primaryKey), e.columns[i]);
      paramIndex := BindParameter(stmt, e.columns[i], paramIndex, e.primaryKey);
    }
    assert e.columns[..|e.columns|] == e.columns;
    sql := stmt.BuildFinalSQL();
  }
}
