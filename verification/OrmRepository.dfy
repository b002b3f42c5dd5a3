/**
 `orm::Repository`: INSERT and UPDATE with numbered placeholders, bound field by field and sent
 through `SybaseStatement`.
 */
module OrmRepository {
  import opened Wrappers
  import opened Text
  import opened Selections
  import opened SqlLiterals
  import opened Placeholders
  import opened Rescanning
  import opened SybaseStatements
  import opened Templates
  import opened StatementEnds

  /** A bool field gets a column and a placeholder, but no bind call. */
  datatype Value = Int32(i: int) | Int64(l: int) | Double(printed: string) | Str(s: string) | Bool(b: bool)

  datatype Field = Field(name: string, value: Value, isPK: bool)

  datatype Entity = Entity(tableName: string, fields: seq<Field>)

  function NonKey(fields: seq<Field>): seq<Field> {
    if fields == [] then [] else
    var before, last := NonKey(fields[..|fields| - 1]), fields[|fields| - 1];
    if last.isPK then before else before + [last]
  }

  function Names(fields: seq<Field>): seq<string> {
    seq(|fields|, i requires 0 <= i < |fields| => fields[i].name)
  }

  function BoundText(v: Value): seq<string> {
    match v
    case Int32(i) => [IntText(i)]
    case Int64(l) => [IntText(l)]
    case Double(printed) => [printed]
    case Str(s) => [Quoted(s)]
    case Bool(_) => []
  }

  function BoundTexts(fields: seq<Field>): seq<string> {
    if fields == [] then [] else BoundTexts(fields[..|fields| - 1]) + BoundText(fields[|fields| - 1].value)
  }

  /** The 64 bits found in memory at a value that is no int64. */
  type Memory = Value -> int

  function KeyBits(v: Value, memory: Memory): int {
    if v.Int64? then v.l else memory(v)
  }

  /** What `update` takes for the key: the last key field, read as an int64 whatever its type. */
  function KeyValue(fields: seq<Field>, memory: Memory): int {
    if fields == [] then 0 else
    var last := fields[|fields| - 1];
    if last.isPK then KeyBits(last.value, memory) else KeyValue(fields[..|fields| - 1], memory)
  }

  function Assigned(names: seq<string>, values: seq<string>): seq<string>
    requires |names| == |values|
  {
    seq(|names|, i requires 0 <= i < |names| => names[i] + " = " + values[i])
  }

  function UpdateText(table: string, names: seq<string>, values: seq<string>, id: string): string
    requires |names| == |values|
  {
    "UPDATE " + table + " SET " + Join(Assigned(names, values)) + " WHERE id = " + id
  }

  function UpdateTemplate(table: string, names: seq<string>): string {
    UpdateText(table, names, Markers(|names|), Placeholder(|names| + 1))
  }

  /** What `buildSQL` makes of a template once all the values are bound. */
  function Built(sql: string, values: seq<string>): string {
    Filled(sql, values, |values|)
  }

  function InsertSQL(e: Entity): string {
    var fields := NonKey(e.fields);
    Built(InsertText(e.tableName, Names(fields), Markers(|fields|)), BoundTexts(fields))
  }

  function KeyText(e: Entity, memory: Memory): string {
    IntText(KeyValue(e.fields, memory))
  }

  function UpdateSQL(e: Entity, memory: Memory): string {
    var fields := NonKey(e.fields);
    Built(UpdateTemplate(e.tableName, Names(fields)), Bound(BoundTexts(fields), |fields| + 1, KeyText(e, memory)))
  }

  // ---- the operations -------------------------------------------------------------------------

  lemma NonKeyStep(fields: seq<Field>, i: nat)
    requires i < |fields|
    ensures var before := NonKey(fields[..i]);
            NonKey(fields[..i + 1]) == if fields[i].isPK then before else before + [fields[i]]
  {
    assert fields[..i + 1][..i] == fields[..i];
  }

  lemma KeyStep(fields: seq<Field>, i: nat, memory: Memory)
    requires i < |fields|
    ensures KeyValue(fields[..i + 1], memory) ==
            if fields[i].isPK then KeyBits(fields[i].value, memory) else KeyValue(fields[..i], memory)
  {
    assert fields[..i + 1][..i] == fields[..i];
  }

  lemma ListsSnoc(fs: seq<Field>, f: Field)
    ensures Names(fs + [f]) == Names(fs) + [f.name]
    ensures BoundTexts(fs + [f]) == BoundTexts(fs) + BoundText(f.value)
  {
    assert (fs + [f])[..|fs|] == fs;
  }

  lemma AssignedSnoc(names: seq<string>, values: seq<string>, n: string, v: string)
    requires |names| == |values|
    ensures Assigned(names + [n], values + [v]) == Assigned(names, values) + [n + " = " + v]
  {
  }

  /** What the list-writing loop has written before item `i`, separator included. */
  function Written(sql: string, items: seq<string>, i: nat): string
    requires i <= |items|
  {
    sql + Join(items[..i]) + if 0 < i < |items| then Comma else ""
  }

  lemma WrittenStep(sql: string, items: seq<string>, i: nat)
    requires i < |items|
    ensures Written(sql, items, i) + items[i] == sql + Join(items[..i + 1])
  {
    var before := items[..i];
    JoinSnoc(before, items[i]);
    assert items[..i + 1] == before + [items[i]];
    if i == 0 {
      assert sql + "" + "" + items[0] == sql + items[0];
    } else {
      assert sql + Join(before) + Comma + items[i] == sql + (Join(before) + Comma + items[i]);
    }
  }

  method WriteList(sql: string, items: seq<string>) returns (sql': string)
    ensures sql' == sql + Join(items)
  {
    sql' := sql;
    assert sql == Written(sql, items, 0);
    for i := 0 to |items|
      invariant sql' == Written(sql, items, i)
    {
      WrittenStep(sql, items, i);
      sql' := sql' + items[i];
      if i < |items| - 1 {
        sql' := sql' + ", ";
      }
    }
    assert items[..|items|] == items;
  }

  method BindField(v: Value, stmt: SybaseStatement, paramIndex: nat) returns (paramIndex': nat)
    requires paramIndex == |stmt.paramValues| + 1
    modifies stmt
    ensures stmt.paramValues == old(stmt.paramValues) + BoundText(v)
    ensures paramIndex' == |stmt.paramValues| + 1
  {
    paramIndex' := if v.Bool? then paramIndex else paramIndex + 1;
    match v {
      case Int32(i) => stmt.BindInteger(paramIndex, i);
      case Int64(l) => stmt.BindInteger(paramIndex, l);
      case Double(printed) => stmt.Store(paramIndex, printed);
      case Str(s) => stmt.BindString(paramIndex, s);
      case Bool(_) =>
    }
  }

  method BindEntityToStatement(e: Entity, stmt: SybaseStatement)
    requires stmt.paramValues == []
    modifies stmt
    ensures stmt.paramValues == BoundTexts(NonKey(e.fields))
  {
    var paramIndex := 1;
    for i := 0 to |e.fields|
      invariant stmt.paramValues == BoundTexts(NonKey(e.fields[..i])) && paramIndex == |stmt.paramValues| + 1
    {
      NonKeyStep(e.fields, i);
      ListsSnoc(NonKey(e.fields[..i]), e.fields[i]);
      if !e.fields[i].isPK {
        paramIndex := BindField(e.fields[i].value, stmt, paramIndex);
      }
    }
    assert e.fields[..|e.fields|] == e.fields;
  }

  method Insert(e: Entity) returns (sent: string)
    ensures sent == InsertSQL(e)
  {
    var columns, values := [], [];
    var paramIndex := 1;
    for i := 0 to |e.fields|
      invariant var fs := NonKey(e.fields[..i]);
                columns == Names(fs) && values == Markers(|fs|) && paramIndex == |fs| + 1
    {
      NonKeyStep(e.fields, i);
      ListsSnoc(NonKey(e.fields[..i]), e.fields[i]);
      MarkersSnoc(|NonKey(e.fields[..i])|);
      if !e.fields[i].isPK {
        columns := columns + [e.fields[i].name];
        values := values + ["$" + Decimal(paramIndex)];
        paramIndex := paramIndex + 1;
      }
    }
    assert e.fields[..|e.fields|] == e.fields;
    var sql := WriteList("INSERT INTO " + e.tableName + " (", columns);
    sql := WriteList(sql + ") VALUES (", values);
    var stmt := new SybaseStatement(sql + ")");
    BindEntityToStatement(e, stmt);
    sent := stmt.BuildSQL();
  }

  /** The visitor that `update` passes to `forEachField`. */
  method CollectUpdates(e: Entity, memory: Memory) returns (updates: seq<string>, paramIndex: nat, idValue: int)
    ensures paramIndex == |NonKey(e.fields)| + 1 && idValue == KeyValue(e.fields, memory)
    ensures updates == Assigned(Names(NonKey(e.fields)), Markers(paramIndex - 1))
  {
    updates, paramIndex, idValue := [], 1, 0;
    for i := 0 to |e.fields|
      invariant paramIndex == |NonKey(e.fields[..i])| + 1 && idValue == KeyValue(e.fields[..i], memory)
      invariant updates == Assigned(Names(NonKey(e.fields[..i])), Markers(paramIndex - 1))
    {
      NonKeyStep(e.fields, i);
      ListsSnoc(NonKey(e.fields[..i]), e.fields[i]);
      MarkersSnoc(paramIndex - 1);
      KeyStep(e.fields, i, memory);
      if e.fields[i].isPK {
        idValue := KeyBits(e.fields[i].value, memory);
      } else {
        AssignedSnoc(Names(NonKey(e.fields[..i])), Markers(paramIndex - 1), e.fields[i].name, Placeholder(paramIndex));
        updates := updates + [e.fields[i].name + " = " + ("$" + Decimal(paramIndex))];
        paramIndex := paramIndex + 1;
      }
    }
    assert e.fields[..|e.fields|] == e.fields;
  }

  method Update(e: Entity, memory: Memory) returns (sent: string)
    ensures sent == UpdateSQL(e, memory)
  {
    var updates, paramIndex, idValue := CollectUpdates(e, memory);
    var sql := WriteList("UPDATE " + e.tableName + " SET ", updates);
    sql := sql + " WHERE id = " + ("$" + Decimal(paramIndex));
    var stmt := new SybaseStatement(sql);
    BindEntityToStatement(e, stmt);
    stmt.BindInteger(paramIndex, idValue);
    sent := stmt.BuildSQL();
  }

  // ---- the generated templates have their placeholders in order -------------------------------

  const Where := " WHERE id = "
  const Equals := " = "

  function UpdateSegments(head: string, names: seq<string>): (r: seq<string>)
    ensures |r| == |names| + 2
    decreases |names|
  {
    if names == [] then [head + Where, ""]
    else if |names| == 1 then [head + names[0] + Equals, Where, ""]
    else [head + names[0] + Equals] + UpdateSegments(Comma, names[1..])
  }

  lemma {:induction false} UpdateIsWoven(head: string, names: seq<string>, fills: seq<string>, id: string)
    requires |names| == |fills|
    ensures Weave(UpdateSegments(head, names), fills + [id]) == head + Join(Assigned(names, fills)) + Where + id
    decreases |names|
  {
    var segs := UpdateSegments(head, names);
    if names == [] {
      WeaveTwo(head + Where, id);
      assert fills + [id] == [id] && head + "" == head;
    } else {
      var items := Assigned(names, fills);
      assert items[0] == names[0] + Equals + fills[0] && items[1..] == Assigned(names[1..], fills[1..]);
      assert (fills + [id])[1..] == fills[1..] + [id];
      if |names| == 1 {
        WeaveTwo(Where, id);
        assert segs[1..] == [Where, ""] && fills[1..] + [id] == [id];
        Flatten(head, names[0], fills[0], Where + id);
        assert head + items[0] + (Where + id) == head + items[0] + Where + id;
      } else {
        assert segs[1..] == UpdateSegments(Comma, names[1..]);
        UpdateIsWoven(Comma, names[1..], fills[1..], id);
        var rest := Join(items[1..]);
        Flatten(head, names[0], fills[0], Comma + rest + Where + id);
        assert head + items[0] + (Comma + rest + Where + id) == head + (items[0] + Comma + rest) + Where + id;
      }
    }
  }

  lemma WeaveTwo(seg: string, id: string)
    ensures Weave([seg, ""], [id]) == seg + id
  {
    assert [seg, ""][1..] == [""] && [id][1..] == [];
  }

  lemma Flatten(head: string, name: string, fill: string, rest: string)
    ensures (head + name + Equals) + fill + rest == head + (name + Equals + fill) + rest
  {
  }

  lemma {:induction false} UpdateSegmentsSafe(head: string, names: seq<string>)
    requires DollarFree(head) && AllDollarFree(names)
    ensures SafeSegments(UpdateSegments(head, names))
    decreases |names|
  {
    if names != [] {
      assert names[0] in names;
    }
    if 2 <= |names| {
      UpdateSegmentsSafe(Comma, names[1..]);
      var rest := UpdateSegments(Comma, names[1..]);
      assert rest[0] == Comma + names[1] + Equals;
      assert forall j :: 1 <= j < |names| + 2 ==> UpdateSegments(head, names)[j] == rest[j - 1];
    }
  }

  // ---- main results ---------------------------------------------------------------------------

  /** `std::to_string` of a double begins with a digit, a sign or a letter. */
  predicate SafeValue(v: Value) {
    v.Double? ==> Leads(v.printed) && DollarFree(v.printed)
  }

  predicate SafeEntity(e: Entity) {
    && DollarFree(e.tableName)
    && AllDollarFree(Names(NonKey(e.fields)))
    && forall f <- NonKey(e.fields) :: SafeValue(f.value)
  }

  predicate AllSupported(fields: seq<Field>) {
    forall f <- fields :: !f.value.Bool?
  }

  lemma BoundTextKind(v: Value)
    requires SafeValue(v)
    ensures |BoundText(v)| == if v.Bool? then 0 else 1
    ensures AllSealed(BoundText(v)) && AllLead(BoundText(v))
  {
    match v
    case Int32(i) => StoredTextsAreSealed(i, "");
    case Int64(l) => StoredTextsAreSealed(l, "");
    case Str(s) => StoredTextsAreSealed(0, s);
    case Double(_) =>
    case Bool(_) =>
  }

  lemma {:induction false} BoundTextsKind(fields: seq<Field>)
    requires forall f <- fields :: SafeValue(f.value)
    ensures AllSealed(BoundTexts(fields)) && AllLead(BoundTexts(fields))
    ensures |BoundTexts(fields)| <= |fields|
    ensures |BoundTexts(fields)| == |fields| <==> AllSupported(fields)
  {
    if fields != [] {
      var before, last := fields[..|fields| - 1], fields[|fields| - 1];
      assert last in fields && fields == before + [last];
      BoundTextsKind(before);
      BoundTextKind(last.value);
    }
  }

  /**
   The text of a value: the decimal text of a number, what the standard library prints for a double, a
   literal that reads back as the string; for a type that is never bound, any rendering of it.
   */
  predicate IsTextOf(v: Value, text: string) {
    && text != "" && Sealed(text)
    && match v
       case Int32(i) => text == IntText(i)
       case Int64(l) => text == IntText(l)
       case Double(printed) => text == printed
       case Str(s) => ReadLiteral(text) == Some((s, ""))
       case Bool(_) => true
  }

  /** The text of each field's own value. */
  predicate OwnTexts(fields: seq<Field>, own: seq<string>) {
    |own| == |fields| && forall i :: 0 <= i < |own| ==> IsTextOf(fields[i].value, own[i])
  }

  lemma TextIsBound(v: Value, text: string)
    requires IsTextOf(v, text)
    ensures text != "" && BoundText(v) == if v.Bool? then [] else [text]
  {
    if v.Str? { LiteralIsUnique(text, v.s); }
  }

  function Total(items: seq<string>): nat {
    if items == [] then 0 else Total(items[..|items| - 1]) + |items[|items| - 1]|
  }

  lemma TotalSnoc(items: seq<string>, item: string)
    ensures Total(items + [item]) == Total(items) + |item|
  {
    assert (items + [item])[..|items|] == items;
  }

  /** When some type is not bound, text is missing; when none is, nothing is. */
  lemma {:induction false} OwnTextsTotal(fields: seq<Field>, own: seq<string>)
    requires OwnTexts(fields, own)
    ensures Total(BoundTexts(fields)) <= Total(own)
    ensures if AllSupported(fields) then BoundTexts(fields) == own else Total(BoundTexts(fields)) < Total(own)
  {
    if fields != [] {
      var n := |fields| - 1;
      var before, last := fields[..n], fields[n];
      assert fields == before + [last] && own == own[..n] + [own[n]];
      assert AllSupported(fields) <==> AllSupported(before) && !last.value.Bool?;
      OwnTextsTotal(before, own[..n]);
      TextIsBound(last.value, own[n]);
      if last.value.Bool? {
        assert BoundTexts(fields) == BoundTexts(before);
      } else {
        TotalSnoc(BoundTexts(before), own[n]);
      }
    }
  }

  // ---- INSERT ---------------------------------------------------------------------------------

  /** What is left of the markers when only the first `m` of `n` are filled. */
  function Unfilled(m: nat, n: nat): seq<string>
    requires m <= n
  {
    PlaceholdersFrom(m + 1, n - m)
  }

  function InsertSegs(table: string, names: seq<string>, n: nat): (r: seq<string>)
    ensures |r| == n + 1
  {
    ListSegments(InsertHead(table, names), ")", n)
  }

  lemma InsertTexts(table: string, names: seq<string>, values: seq<string>, n: nat)
    requires |values| <= n
    ensures InsertText(table, names, Markers(n)) == Template(InsertSegs(table, names, n), n)
    ensures InsertText(table, names, values + Unfilled(|values|, n)) == Whole(InsertSegs(table, names, n), values, n)
  {
    assert Markers(n) == PlaceholdersFrom(1, n);
    InsertIsWoven(table, names, Markers(n));
    InsertIsWoven(table, names, values + Unfilled(|values|, n));
  }

  lemma InsertFilled(table: string, names: seq<string>, values: seq<string>, n: nat)
    requires DollarFree(table) && AllDollarFree(names) && AllLead(values) && |values| <= n
    ensures var sql := InsertText(table, names, Markers(n));
            && (Built(sql, values) == InsertText(table, names, values + Unfilled(|values|, n)) <==> Surviving(values))
            && (|values| == n ==> InsertText(table, names, values + Unfilled(|values|, n)) == Subst(sql, values))
  {
    InsertHeadSafe(table, names, n);
    InsertTexts(table, names, values, n);
    InOrderTemplate(InsertSegs(table, names, n), values, n);
  }

  /**
   The INSERT that is sent holds the bound values in order, then the placeholders no value was left
   for, exactly when no value contains the placeholder of a later column. With every field type
   supported that text is the simultaneous substitution, for any number of columns.
   */
  lemma {:induction false} InsertFillsInOrder(e: Entity)
    requires SafeEntity(e)
    ensures var fields := NonKey(e.fields);
            var n, names, values := |fields|, Names(fields), BoundTexts(fields);
            && |values| <= n
            && (InsertSQL(e) == InsertText(e.tableName, names, values + Unfilled(|values|, n)) <==> Surviving(values))
            && (AllSupported(fields) ==>
                  (InsertSQL(e) == Subst(InsertText(e.tableName, names, Markers(n)), values) <==> Surviving(values)))
  {
    var fields := NonKey(e.fields);
    BoundTextsKind(fields);
    InsertFilled(e.tableName, Names(fields), BoundTexts(fields), |fields|);
  }

  lemma {:induction false} LastSegment(head: string, tail: string, n: nat)
    requires 0 < n
    ensures ListSegments(head, tail, n)[n] == tail
    decreases n
  {
    if 2 <= n { LastSegment(Comma, tail, n - 1); }
  }

  /** With a value missing, the INSERT still ends in a placeholder. */
  lemma InsertEndsUnfilled(e: Entity) returns (y: string)
    requires SafeEntity(e) && !AllSupported(NonKey(e.fields))
    ensures NonKey(e.fields) != [] && InsertSQL(e) == y + Placeholder(|NonKey(e.fields)|) + ")"
  {
    var fields := NonKey(e.fields);
    var n, values, segs := |fields|, BoundTexts(fields), InsertSegs(e.tableName, Names(fields), |fields|);
    BoundTextsKind(fields);
    InsertTexts(e.tableName, Names(fields), values, n);
    y := InOrderEnd(segs, values, n);
    LastSegment(InsertHead(e.tableName, Names(fields)), ")", n);
  }

  /** Every column gets its own field's value exactly when all types are supported and all values survive. */
  lemma {:induction false} InsertIsOwnIff(e: Entity, own: seq<string>)
    requires SafeEntity(e) && OwnTexts(NonKey(e.fields), own)
    ensures var fields := NonKey(e.fields);
            InsertSQL(e) == InsertText(e.tableName, Names(fields), own) <==>
            AllSupported(fields) && Surviving(BoundTexts(fields))
  {
    var fields := NonKey(e.fields);
    OwnTextsTotal(fields, own);
    if AllSupported(fields) {
      InsertFillsInOrder(e);
      assert own + Unfilled(|own|, |own|) == own;
    } else {
      var x := InsertEndsUnfilled(e);
      var y := InsertTextEnd(e.tableName, Names(fields), own);
      EndsApart(x, |fields|, y, own[|own| - 1], ")");
    }
  }

  lemma InsertTextDollarFree(table: string, names: seq<string>, values: seq<string>)
    requires DollarFree(table) && AllDollarFree(names) && AllDollarFree(values)
    ensures DollarFree(InsertText(table, names, values))
  {
    JoinDollarFree(names);
    JoinDollarFree(values);
    assert InsertText(table, names, values) == InsertHead(table, names) + Join(values) + ")";
  }

  lemma EndHasDollar(y: string, n: nat)
    ensures '$' in y + Placeholder(n) + ")"
  {
    assert (y + Placeholder(n) + ")")[|y|] == '$';
  }

  /**
   The INSERT is complete, each column with its own value, exactly when no field is of an unsupported
   type and no value contains the placeholder of a later column. For values without `$`: no
   placeholder is left in it exactly when no field is of an unsupported type.
   */
  lemma {:induction false} InsertCompleteIff(e: Entity)
    requires SafeEntity(e)
    ensures var fields := NonKey(e.fields);
            && (forall own :: OwnTexts(fields, own) ==>
                  (InsertSQL(e) == InsertText(e.tableName, Names(fields), own) <==>
                     AllSupported(fields) && Surviving(BoundTexts(fields))))
            && (AllDollarFree(BoundTexts(fields)) ==> (DollarFree(InsertSQL(e)) <==> AllSupported(fields)))
  {
    var fields := NonKey(e.fields);
    var n, values := |fields|, BoundTexts(fields);
    forall own | OwnTexts(fields, own)
      ensures InsertSQL(e) == InsertText(e.tableName, Names(fields), own) <==> AllSupported(fields) && Surviving(values)
    {
      InsertIsOwnIff(e, own);
    }
    if AllDollarFree(values) && AllSupported(fields) {
      PlainSurvive(values);
      BoundTextsKind(fields);
      InsertFillsInOrder(e);
      assert values + Unfilled(n, n) == values;
      InsertTextDollarFree(e.tableName, Names(fields), values);
    }
    if !AllSupported(fields) {
      var y := InsertEndsUnfilled(e);
      EndHasDollar(y, n);
    }
  }

  // ---- UPDATE ---------------------------------------------------------------------------------

  function UpdateSegs(table: string, names: seq<string>): seq<string> {
    UpdateSegments("UPDATE " + table + " SET ", names)
  }

  lemma UpdateTextIsWoven(table: string, names: seq<string>, values: seq<string>, id: string)
    requires |names| == |values|
    ensures |UpdateSegs(table, names)| == |names| + 2
    ensures UpdateText(table, names, values, id) == Weave(UpdateSegs(table, names), values + [id])
  {
    UpdateIsWoven("UPDATE " + table + " SET ", names, values, id);
  }

  lemma UpdateHeadSafe(table: string, names: seq<string>)
    requires DollarFree(table) && AllDollarFree(names)
    ensures SafeSegments(UpdateSegs(table, names))
  {
    var verb, set' := "UPDATE ", " SET ";
    assert DollarFree(verb) && DollarFree(set');
    assert DollarFree(verb + table + set');
    UpdateSegmentsSafe(verb + table + set', names);
  }

  lemma TemplateIsWoven(table: string, names: seq<string>)
    ensures |UpdateSegs(table, names)| == |names| + 2
    ensures UpdateTemplate(table, names) == Template(UpdateSegs(table, names), |names| + 1)
  {
    UpdateTextIsWoven(table, names, Markers(|names|), Placeholder(|names| + 1));
    assert Markers(|names|) + [Placeholder(|names| + 1)] == PlaceholdersFrom(1, |names| + 1);
  }

  /** With a text for every placeholder of the UPDATE, the key's among them. */
  lemma UpdateFilled(table: string, names: seq<string>, values: seq<string>, id: string, all: seq<string>)
    requires DollarFree(table) && AllDollarFree(names)
    requires |values| == |names| && all == values + [id]
    ensures var sql := UpdateTemplate(table, names);
            && (Surviving(all) ==> Built(sql, all) == UpdateText(table, names, values, id))
            && (AllLead(all) ==> (Built(sql, all) == UpdateText(table, names, values, id) <==> Surviving(all)))
            && |Built(sql, all)| == |UpdateText(table, names, values, id)|
            && UpdateText(table, names, values, id) == Subst(sql, all)
  {
    TemplateIsWoven(table, names);
    UpdateHeadSafe(table, names);
    UpdateTextIsWoven(table, names, values, id);
    InOrderTemplate(UpdateSegs(table, names), all, |all|);
  }

  lemma KeyBoundBehind(values: seq<string>, n: nat, id: string)
    requires |values| <= n
    ensures Bound(values, n + 1, id) == Blanked(values, n) + [id]
    ensures |values| == n ==> Blanked(values, n) == values
  {
  }

  function Blanked(values: seq<string>, n: nat): (r: seq<string>)
    requires |values| <= n
    ensures |r| == n && values <= r
  {
    values + seq(n - |values|, _ => "")
  }

  lemma BuiltWithKey(sql: string, values: seq<string>, n: nat, id: string)
    requires |values| <= n
    ensures Built(sql, Bound(values, n + 1, id)) == Built(sql, Blanked(values, n) + [id])
  {
    KeyBoundBehind(values, n, id);
  }

  lemma UpdateSent(e: Entity, memory: Memory)
    requires |BoundTexts(NonKey(e.fields))| <= |NonKey(e.fields)|
    ensures UpdateSQL(e, memory) ==
            Built(UpdateTemplate(e.tableName, Names(NonKey(e.fields))),
                  Blanked(BoundTexts(NonKey(e.fields)), |NonKey(e.fields)|) + [KeyText(e, memory)])
  {
    var fields := NonKey(e.fields);
    BuiltWithKey(UpdateTemplate(e.tableName, Names(fields)), BoundTexts(fields), |fields|, KeyText(e, memory));
  }

  /**
   The UPDATE that is sent: the bound values in order, blanks where none was left, and the key's
   value in the last placeholder, the one of the WHERE clause, as long as no value contains a later
   placeholder, the key's included. Its length is that of this text in any case.
   */
  lemma {:induction false} UpdateFillsInOrder(e: Entity, memory: Memory)
    requires SafeEntity(e)
    ensures var fields, id := NonKey(e.fields), KeyText(e, memory);
            var n, values := |fields|, BoundTexts(fields);
            && |values| <= n
            && var whole := UpdateText(e.tableName, Names(fields), Blanked(values, n), id);
               && (Surviving(Blanked(values, n) + [id]) ==> UpdateSQL(e, memory) == whole)
               && |UpdateSQL(e, memory)| == |whole|
  {
    var fields, id := NonKey(e.fields), KeyText(e, memory);
    BoundTextsKind(fields);
    UpdateSent(e, memory);
    var blanked := Blanked(BoundTexts(fields), |fields|);
    UpdateFilled(e.tableName, Names(fields), blanked, id, blanked + [id]);
  }

  /**
   With every field type supported the UPDATE is the simultaneous substitution, for any number of
   columns, exactly when no value contains a later placeholder, the key's included.
   */
  lemma {:induction false} UpdateIsSimultaneous(e: Entity, memory: Memory)
    requires SafeEntity(e) && AllSupported(NonKey(e.fields))
    ensures var fields, id := NonKey(e.fields), KeyText(e, memory);
            var values := BoundTexts(fields);
            && |values| == |fields|
            && (UpdateSQL(e, memory) == Subst(UpdateTemplate(e.tableName, Names(fields)), values + [id]) <==>
                  Surviving(values + [id]))
            && (UpdateSQL(e, memory) == UpdateText(e.tableName, Names(fields), values, id) <==> Surviving(values + [id]))
  {
    var fields, id := NonKey(e.fields), KeyText(e, memory);
    BoundTextsKind(fields);
    UpdateSent(e, memory);
    StoredTextsAreSealed(KeyValue(e.fields, memory), "");
    var values := BoundTexts(fields);
    assert Blanked(values, |fields|) == values && AllLead(values + [id]);
    UpdateFilled(e.tableName, Names(fields), values, id, values + [id]);
  }

  lemma {:induction false} JoinLength(items: seq<string>)
    ensures |Join(items)| == Total(items) + if items == [] then 0 else 2 * (|items| - 1)
  {
    if items != [] {
      var init, last := items[..|items| - 1], items[|items| - 1];
      assert items == init + [last];
      JoinLength(init);
      JoinSnoc(init, last);
    }
  }

  lemma {:induction false} AssignedTotal(names: seq<string>, values: seq<string>)
    requires |names| == |values|
    ensures Total(Assigned(names, values)) == Total(names) + 3 * |names| + Total(values)
  {
    if names != [] {
      var n := |names| - 1;
      assert names == names[..n] + [names[n]] && values == values[..n] + [values[n]];
      AssignedSnoc(names[..n], values[..n], names[n], values[n]);
      AssignedTotal(names[..n], values[..n]);
      TotalSnoc(Assigned(names[..n], values[..n]), names[n] + " = " + values[n]);
    }
  }

  lemma UpdateTextLength(table: string, names: seq<string>, a: seq<string>, b: seq<string>, id: string)
    requires |names| == |a| == |b|
    ensures |UpdateText(table, names, a, id)| - |UpdateText(table, names, b, id)| == Total(a) - Total(b)
  {
    AssignedTotal(names, a);
    AssignedTotal(names, b);
    JoinLength(Assigned(names, a));
    JoinLength(Assigned(names, b));
  }

  lemma {:induction false} BlankedTotal(values: seq<string>, n: nat)
    requires |values| <= n
    ensures Total(Blanked(values, n)) == Total(values)
    decreases n
  {
    if |values| < n {
      BlankedTotal(values, n - 1);
      assert Blanked(values, n) == Blanked(values, n - 1) + [""];
      TotalSnoc(Blanked(values, n - 1), "");
    } else {
      assert Blanked(values, n) == values;
    }
  }

  /**
   Of the UPDATE that is sent: each assignment carries its own field's value, and the WHERE clause the
   key, under the same condition.
   */
  lemma {:induction false} UpdateIsOwnIff(e: Entity, memory: Memory, own: seq<string>)
    requires SafeEntity(e) && OwnTexts(NonKey(e.fields), own)
    ensures var fields, id := NonKey(e.fields), KeyText(e, memory);
            UpdateSQL(e, memory) == UpdateText(e.tableName, Names(fields), own, id) <==>
            AllSupported(fields) && Surviving(BoundTexts(fields) + [id])
  {
    var fields, id := NonKey(e.fields), KeyText(e, memory);
    OwnTextsTotal(fields, own);
    if AllSupported(fields) {
      UpdateIsSimultaneous(e, memory);
    } else {
      UpdateFillsInOrder(e, memory);
      var blanked := Blanked(BoundTexts(fields), |fields|);
      BlankedTotal(BoundTexts(fields), |fields|);
      UpdateTextLength(e.tableName, Names(fields), blanked, own, id);
    }
  }

  /**
   The UPDATE is complete, each assignment with its own field's value and the WHERE clause with the
   key, exactly when no non-key field is of an unsupported type and no value contains a later
   placeholder.
   */
  lemma {:induction false} UpdateCompleteIff(e: Entity, memory: Memory)
    requires SafeEntity(e)
    ensures var fields, id := NonKey(e.fields), KeyText(e, memory);
            && |BoundTexts(fields)| <= |fields|
            && ("" !in Blanked(BoundTexts(fields), |fields|) <==> AllSupported(fields))
            && (forall own :: OwnTexts(fields, own) ==>
                  (UpdateSQL(e, memory) == UpdateText(e.tableName, Names(fields), own, id) <==>
                     AllSupported(fields) && Surviving(BoundTexts(fields) + [id])))
  {
    var fields, id := NonKey(e.fields), KeyText(e, memory);
    BoundTextsKind(fields);
    BlanksShow(BoundTexts(fields), |fields|);
    forall own | OwnTexts(fields, own)
      ensures UpdateSQL(e, memory) == UpdateText(e.tableName, Names(fields), own, id) <==>
              AllSupported(fields) && Surviving(BoundTexts(fields) + [id])
    {
      UpdateIsOwnIff(e, memory, own);
    }
  }

  lemma BlanksShow(values: seq<string>, n: nat)
    requires |values| <= n && AllLead(values)
    ensures "" !in Blanked(values, n) <==> |values| == n
  {
    if |values| < n { assert Blanked(values, n)[|values|] == ""; }
  }

  // ---- the statements, column by column -------------------------------------------------------

  function NonKeyFlags(fields: seq<Field>): (r: seq<bool>)
    ensures |r| == |fields|
  {
    seq(|fields|, i requires 0 <= i < |fields| => !fields[i].isPK)
  }

  /** How many fields are no keys. */
  function ColumnCount(e: Entity): nat {
    |PlacesOf(NonKeyFlags(e.fields))|
  }

  /** The `k`-th of them. */
  function ColumnField(e: Entity, k: nat): Field
    requires k < ColumnCount(e)
  {
    PlacesAscend(NonKeyFlags(e.fields), PlacesOf(NonKeyFlags(e.fields)));
    e.fields[PlacesOf(NonKeyFlags(e.fields))[k]]
  }

  /** A list of one text for every such field, the text of its own value, for a statement that has its name in it. */
  predicate OwnColumns(e: Entity, own: seq<string>) {
    |own| == ColumnCount(e) && forall k :: 0 <= k < |own| ==> IsTextOf(ColumnField(e, k).value, own[k])
  }

  predicate Supported(e: Entity) {
    forall k :: 0 <= k < ColumnCount(e) ==> !ColumnField(e, k).value.Bool?
  }

  lemma {:induction false} NonKeyIsPicked(fields: seq<Field>)
    ensures var at := PlacesOf(NonKeyFlags(fields));
            |NonKey(fields)| == |at| && forall k :: 0 <= k < |at| ==> at[k] < |fields| && NonKey(fields)[k] == fields[at[k]]
  {
    if fields != [] {
      var n := |fields| - 1;
      NonKeyIsPicked(fields[..n]);
      assert NonKeyFlags(fields)[..n] == NonKeyFlags(fields[..n]);
    }
  }

  lemma ColumnsAreNonKey(e: Entity)
    ensures |NonKey(e.fields)| == ColumnCount(e)
    ensures forall k :: 0 <= k < ColumnCount(e) ==> NonKey(e.fields)[k] == ColumnField(e, k)
  {
    NonKeyIsPicked(e.fields);
  }

  lemma OwnColumnsAreOwn(e: Entity, own: seq<string>)
    requires OwnColumns(e, own)
    ensures OwnTexts(NonKey(e.fields), own) && (AllSupported(NonKey(e.fields)) <==> Supported(e))
    ensures AllSupported(NonKey(e.fields)) ==> BoundTexts(NonKey(e.fields)) == own
  {
    ColumnsAreNonKey(e);
    OwnTextsTotal(NonKey(e.fields), own);
    var fields := NonKey(e.fields);
    assert AllSupported(fields) <==> forall k :: 0 <= k < |fields| ==> !fields[k].value.Bool?;
  }

  /**
   The INSERT that is sent lists the columns that are no keys in order, each with the text of its own
   value, exactly when all their types are supported and no value contains the placeholder of a later
   column.
   */
  lemma InsertSentIff(e: Entity, names: seq<string>, own: seq<string>)
    requires SafeEntity(e) && OwnColumns(e, own)
    requires |names| == ColumnCount(e) && forall k :: 0 <= k < |names| ==> names[k] == ColumnField(e, k).name
    ensures InsertSQL(e) == "INSERT INTO " + e.tableName + " (" + Join(names) + ") VALUES (" + Join(own) + ")" <==>
            Supported(e) && Surviving(own)
  {
    OwnColumnsAreOwn(e, own);
    InsertIsOwnIff(e, own);
    ColumnNames(e, names);
  }

  lemma ColumnNames(e: Entity, names: seq<string>)
    requires |names| == ColumnCount(e) && forall k :: 0 <= k < |names| ==> names[k] == ColumnField(e, k).name
    ensures names == Names(NonKey(e.fields))
  {
    ColumnsAreNonKey(e);
  }

  lemma ColumnItems(e: Entity, own: seq<string>, items: seq<string>)
    requires |items| == |own| == ColumnCount(e)
    requires forall k :: 0 <= k < |own| ==> items[k] == ColumnField(e, k).name + " = " + own[k]
    ensures |NonKey(e.fields)| == |own| && items == Assigned(Names(NonKey(e.fields)), own)
  {
    ColumnsAreNonKey(e);
  }

  /**
   The number `update` binds for the key: that of the last int64 key, or what memory holds at a last key
   of another type, or 0 without a key.
   */
  predicate KeyNumber(fields: seq<Field>, memory: Memory, key: int) {
    && ((forall i :: 0 <= i < |fields| ==> !fields[i].isPK) ==> key == 0)
    && forall k :: 0 <= k < |fields| && fields[k].isPK && (forall i :: k < i < |fields| ==> !fields[i].isPK) ==>
         key == match fields[k].value case Int64(l) => l case other => memory(other)
  }

  lemma {:induction false} KeyNumberIsKeyValue(fields: seq<Field>, memory: Memory, key: int)
    requires KeyNumber(fields, memory, key)
    ensures KeyValue(fields, memory) == key
  {
    if fields != [] {
      var n := |fields| - 1;
      var init := fields[..n];
      if !fields[n].isPK {
        assert forall i :: 0 <= i < n ==> init[i] == fields[i];
        KeyNumberIsKeyValue(init, memory, key);
      }
    }
  }

  /**
   The UPDATE that is sent assigns every column that is no key the text of its own value, in order, and
   names the key's number, under the same condition, in which the key counts as the last value.
   */
  lemma UpdateSentIff(e: Entity, memory: Memory, key: int, own: seq<string>, items: seq<string>)
    requires SafeEntity(e) && OwnColumns(e, own) && KeyNumber(e.fields, memory, key)
    requires |items| == |own| && forall k :: 0 <= k < |own| ==> items[k] == ColumnField(e, k).name + " = " + own[k]
    ensures UpdateSQL(e, memory) ==
            "UPDATE " + e.tableName + " SET " + Join(items) + " WHERE id = " + IntText(key) <==>
            Supported(e) && Surviving(own + [IntText(key)])
  {
    OwnColumnsAreOwn(e, own);
    KeyNumberIsKeyValue(e.fields, memory, key);
    UpdateIsOwnIff(e, memory, own);
    ColumnItems(e, own, items);
  }
}
