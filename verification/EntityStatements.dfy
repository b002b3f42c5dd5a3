/**
 The two INSERT statements of the entity repository, column by column: which value stands in which
 place, for every type of column.
 */
module EntityStatements {
  import opened Wrappers
  import opened Text
  import opened Selections
  import opened SqlLiterals
  import opened Placeholders
  import opened SybPreparedStatements
  import opened Rescanning
  import opened Templates
  import opened StatementEnds
  import opened EntityRepository
  import opened InsertPaths

  function NonKeyFlags(e: Entity): (r: seq<bool>)
    ensures |r| == |e.columns|
  {
    seq(|e.columns|, i requires 0 <= i < |e.columns| => e.columns[i].name != e.primaryKey)
  }

  /** How many columns are not the primary key. */
  function ColumnCount(e: Entity): nat {
    |PlacesOf(NonKeyFlags(e))|
  }

  /** The `k`-th of them. */
  function ColumnAt(e: Entity, k: nat): Column
    requires k < ColumnCount(e)
  {
    PlacesAscend(NonKeyFlags(e), PlacesOf(NonKeyFlags(e)));
    e.columns[PlacesOf(NonKeyFlags(e))[k]]
  }

  predicate ColumnNames(e: Entity, names: seq<string>) {
    |names| == ColumnCount(e) && forall k :: 0 <= k < |names| ==> names[k] == ColumnAt(e, k).name
  }

  lemma {:induction false} NonKeyIsPicked(columns: seq<Column>, key: string, flags: seq<bool>)
    requires |flags| == |columns| && forall i :: 0 <= i < |columns| ==> flags[i] == (columns[i].name != key)
    ensures var at := PlacesOf(flags);
            && |NonKey(columns, key)| == |at|
            && forall k :: 0 <= k < |at| ==> at[k] < |columns| && NonKey(columns, key)[k] == columns[at[k]]
  {
    if columns != [] {
      var n := |columns| - 1;
      NonKeyIsPicked(columns[..n], key, flags[..n]);
    }
  }

  lemma ColumnsAreNonKey(e: Entity)
    ensures |NonKey(e.columns, e.primaryKey)| == ColumnCount(e)
    ensures forall k :: 0 <= k < ColumnCount(e) ==> NonKey(e.columns, e.primaryKey)[k] == ColumnAt(e, k)
  {
    NonKeyIsPicked(e.columns, e.primaryKey, NonKeyFlags(e));
  }

  lemma NamesAreNonKey(e: Entity, names: seq<string>)
    requires ColumnNames(e, names)
    ensures names == Names(NonKey(e.columns, e.primaryKey))
  {
    ColumnsAreNonKey(e);
  }

  // ---- insert ---------------------------------------------------------------------------------

  /** A number in decimal, a quoted and escaped string, or what the stream prints. */
  predicate IsLiteralOf(f: Field, text: string) {
    match f
    case IntField(value) => text == IntText(value)
    case TextField(s) => text == "'" + Escaped(s) + "'"
    case DoubleField(streamed, _) => text == streamed
    case OtherField(streamed) => text == streamed
  }

  /** `insert` lists the columns that are not the key in order, each with the literal of its own value. */
  lemma InsertSent(e: Entity, names: seq<string>, literals: seq<string>)
    requires ColumnNames(e, names) && |literals| == ColumnCount(e)
    requires forall k :: 0 <= k < |literals| ==> IsLiteralOf(ColumnAt(e, k).field, literals[k])
    ensures InsertSQL(e) == "INSERT INTO " + e.tableName + " (" + Join(names) + ") VALUES (" + Join(literals) + ")"
  {
    NamesAreNonKey(e, names);
    LiteralsOfColumns(e, literals);
  }

  lemma LiteralsOfColumns(e: Entity, literals: seq<string>)
    requires |literals| == ColumnCount(e)
    requires forall k :: 0 <= k < |literals| ==> IsLiteralOf(ColumnAt(e, k).field, literals[k])
    ensures literals == Literals(NonKey(e.columns, e.primaryKey))
  {
    ColumnsAreNonKey(e);
    var cs := NonKey(e.columns, e.primaryKey);
    forall k | 0 <= k < |literals| ensures literals[k] == Literals(cs)[k] {
      assert cs[k] == ColumnAt(e, k);
    }
  }

  // ---- insertPS -------------------------------------------------------------------------------

  /** `std::to_string` of a double begins with a digit, a sign or a letter. */
  predicate SafeField(f: Field) {
    f.DoubleField? ==> Leads(f.printed) && DollarFree(f.printed)
  }

  predicate SafeEntity(e: Entity) {
    && DollarFree(e.tableName)
    && AllDollarFree(Names(NonKey(e.columns, e.primaryKey)))
    && forall k :: 0 <= k < ColumnCount(e) ==> SafeField(ColumnAt(e, k).field)
  }

  /** As a bound parameter; for a type that is never bound, any rendering of it. */
  predicate IsTextOf(f: Field, text: string) {
    && text != "" && Sealed(text)
    && match f
       case IntField(value) => text == IntText(value)
       case TextField(s) => ReadLiteral(text) == Some((s, ""))
       case DoubleField(_, printed) => text == printed
       case OtherField(_) => true
  }

  predicate OwnColumns(e: Entity, own: seq<string>) {
    |own| == ColumnCount(e) && forall k :: 0 <= k < |own| ==> IsTextOf(ColumnAt(e, k).field, own[k])
  }

  predicate Supported(e: Entity) {
    forall k :: 0 <= k < ColumnCount(e) ==> !ColumnAt(e, k).field.OtherField?
  }

  lemma TextIsBound(f: Field, text: string)
    requires IsTextOf(f, text)
    ensures BoundText(f) == if f.OtherField? then [] else [text]
  {
    if f.TextField? { LiteralIsUnique(text, f.text); }
  }

  lemma TextKind(f: Field, text: string)
    requires IsTextOf(f, text) && SafeField(f) && !f.OtherField?
    ensures Sealed(text) && Leads(text)
  {
    match f
    case IntField(value) => StoredTextsAreSealed(value, "");
    case TextField(s) => LiteralIsUnique(text, s); StoredTextsAreSealed(0, s);
    case DoubleField(_, _) =>
  }

  ghost predicate OwnTexts(cs: seq<Column>, own: seq<string>) {
    |own| == |cs| && forall k :: 0 <= k < |cs| ==> IsTextOf(cs[k].field, own[k]) && SafeField(cs[k].field)
  }

  predicate AllSupported(cs: seq<Column>) {
    forall k :: 0 <= k < |cs| ==> !cs[k].field.OtherField?
  }

  lemma {:induction false} BoundKind(cs: seq<Column>, own: seq<string>)
    requires OwnTexts(cs, own)
    ensures AllSealed(BoundTexts(cs)) && AllLead(BoundTexts(cs))
  {
    if cs != [] {
      var n := |cs| - 1;
      BoundKind(cs[..n], own[..n]);
      TextIsBound(cs[n].field, own[n]);
      if !cs[n].field.OtherField? { TextKind(cs[n].field, own[n]); }
    }
  }

  /** Every column has its text bound, in order; unless some type is never bound. */
  lemma {:induction false} BoundAreOwn(cs: seq<Column>, own: seq<string>)
    requires OwnTexts(cs, own)
    ensures |BoundTexts(cs)| <= |cs|
    ensures if AllSupported(cs) then BoundTexts(cs) == own else |BoundTexts(cs)| < |cs|
  {
    if cs != [] {
      var n := |cs| - 1;
      BoundAreOwn(cs[..n], own[..n]);
      TextIsBound(cs[n].field, own[n]);
      SupportedLast(cs, n);
      LastOwn(own, n);
    }
  }

  lemma SupportedLast(cs: seq<Column>, n: nat)
    requires |cs| == n + 1
    ensures AllSupported(cs) <==> AllSupported(cs[..n]) && !cs[n].field.OtherField?
  {
    assert forall k :: 0 <= k < n ==> cs[..n][k] == cs[k];
  }

  lemma LastOwn(own: seq<string>, n: nat)
    requires |own| == n + 1
    ensures own == own[..n] + [own[n]]
  {
  }

  /** Up to the ninth column each value is the column's own, rescanned. */
  lemma FilledUpToNine(vs: seq<string>, i: nat)
    requires i < |vs| && i < 9 && AllSealed(vs) && AllLead(vs)
    ensures var x := Filled(vs, i + 1);
            if Undisturbed(vs[i], i + 1, |vs|) then x == vs[i] else x != vs[i] && Diverge(x, vs[i])
  {
    NoTail(i + 1);
    var x := Rescan(vs[i], vs, i + 1, |vs|);
    assert x + "" == x;
    RescanIff(vs[i], vs, i + 1, |vs|);
    if !Undisturbed(vs[i], i + 1, |vs|) { ChangedDiverges(vs[i], x); }
  }

  lemma AllFilledIff(table: string, names: seq<string>, vs: seq<string>)
    requires |vs| <= 9 && AllSealed(vs) && AllLead(vs)
    ensures InsertText(table, names, AllFilled(vs, |vs|)) == InsertText(table, names, vs) <==> Surviving(vs)
  {
    var n, fs := |vs|, AllFilled(vs, |vs|);
    forall i | 0 <= i < n
      ensures if Undisturbed(vs[i], i + 1, n) then fs[i] == vs[i] else fs[i] != vs[i] && Diverge(fs[i], vs[i])
    {
      FilledUpToNine(vs, i);
    }
    if fs != vs {
      assert fs[..n] == fs && vs[..n] == vs;
      var k := FirstDifference(fs, vs, n);
      InsertsApart(table, names, fs, vs, k);
    }
  }

  /** With a value missing, the placeholder of the last of at most nine columns stays. */
  lemma UnfilledStays(table: string, names: seq<string>, vs: seq<string>, n: nat, own: seq<string>)
    requires |vs| < n == |own| <= 9 && own[n - 1] != "" && Sealed(own[n - 1])
    ensures InsertText(table, names, AllFilled(vs, n)) != InsertText(table, names, own)
  {
    NoTail(n);
    var fs := AllFilled(vs, n);
    assert fs[n - 1] == Placeholder(n);
    var x := InsertTextEnd(table, names, fs);
    var y := InsertTextEnd(table, names, own);
    EndsApart(x, n, y, own[n - 1], ")");
  }

  /**
   With at most nine columns, what `insertPS` sends has each column's own value in its place exactly
   when all types are supported and no value contains the placeholder of a later column.
   */
  lemma InsertPSSentIff(e: Entity, names: seq<string>, own: seq<string>)
    requires SafeEntity(e) && ColumnCount(e) <= 9 && ColumnNames(e, names) && OwnColumns(e, own)
    ensures InsertPSSQL(e) == "INSERT INTO " + e.tableName + " (" + Join(names) + ") VALUES (" + Join(own) + ")" <==>
            Supported(e) && Surviving(own)
  {
    var cs := NonKey(e.columns, e.primaryKey);
    NamesAreNonKey(e, names);
    BoundOfColumns(e, own);
    var vs := BoundTexts(cs);
    GeneratedInsertFilled(e.tableName, names, vs, |cs|);
    if Supported(e) {
      AllFilledIff(e.tableName, names, vs);
    } else {
      UnfilledStays(e.tableName, names, vs, |cs|, own);
    }
  }

  lemma BoundOfColumns(e: Entity, own: seq<string>)
    requires SafeEntity(e) && OwnColumns(e, own)
    ensures var vs := BoundTexts(NonKey(e.columns, e.primaryKey));
            && |NonKey(e.columns, e.primaryKey)| == |own| && |vs| <= |own| && AllSealed(vs) && AllLead(vs)
            && (if Supported(e) then vs == own else |vs| < |own| && own[|own| - 1] != "" && Sealed(own[|own| - 1]))
  {
    ColumnsAreNonKey(e);
    var cs := NonKey(e.columns, e.primaryKey);
    forall k | 0 <= k < |cs| ensures IsTextOf(cs[k].field, own[k]) && SafeField(cs[k].field) {
      assert cs[k] == ColumnAt(e, k);
    }
    BoundKind(cs, own);
    BoundAreOwn(cs, own);
    assert AllSupported(cs) <==> Supported(e);
    if own != [] { assert IsTextOf(cs[|own| - 1].field, own[|own| - 1]); }
  }
}
