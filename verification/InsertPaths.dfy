/**
 When the two insert paths produce the same statement, for entities of integer and string columns with
 any values; the names contain no `$`.
 */
module InsertPaths {
  import opened Text
  import opened SqlLiterals
  import opened Placeholders
  import opened SybPreparedStatements
  import opened Rescanning
  import opened ReplaceOrder
  import opened Templates
  import opened QuotedTexts
  import opened EntityRepository

  // ---- what the passes make of "$1, $2, ..., $n" ----------------------------------------------

  function Lead(k: nat): (f: nat)
    requires 0 < k
    ensures 1 <= f <= k && (k < 10 ==> f == k)
  {
    DecimalLead(k);
    DigitOf(Decimal(k)[0], 10).value
  }

  function Tail(k: nat): string {
    Decimal(k)[1..]
  }

  /**
   The text that ends up in the place of `$k`: "$12" becomes the first value, rescanned, followed by "2".
   Without a value for its leading digit the placeholder stays.
   */
  function Filled(vs: seq<string>, k: nat): string
    requires 1 <= k
  {
    if Lead(k) <= |vs| then Rescan(vs[Lead(k) - 1], vs, Lead(k), |vs|) + Tail(k) else Placeholder(k)
  }

  function AllFilled(vs: seq<string>, n: nat): seq<string> {
    seq(n, i requires 0 <= i < n => Filled(vs, i + 1))
  }

  function Separator(rest: seq<string>): string {
    if rest == [] then "" else Comma
  }

  lemma JoinCons(x: string, rest: seq<string>, z: string)
    ensures Join([x] + rest) + z == x + Separator(rest) + (Join(rest) + z)
  {
    assert ([x] + rest)[1..] == rest;
  }

  lemma PassesOverMarker(k: nat, sep: string, s: string, vs: seq<string>)
    requires 1 <= k && AllSealed(vs) && DollarFree(sep)
    ensures Passes(Placeholder(k) + sep + s, vs, |vs|) == Filled(vs, k) + sep + Passes(s, vs, |vs|)
  {
    var c, f, tail, rest := Decimal(k)[0], Lead(k), Tail(k), Passes(s, vs, |vs|);
    assert Decimal(k) == [c] + tail;
    Regroup("$", [c], tail, sep, s);
    TailIsDigits(k);
    assert IsDigit(c) && DollarFree(tail + sep);
    if f <= |vs| {
      PassesOverBound(c, f, tail + sep + s, vs, |vs|);
      PassesOverPlain(tail + sep, s, vs, |vs|);
      FilledThen(Rescan(vs[f - 1], vs, f, |vs|), tail, sep, rest);
    } else {
      PassesOverUnboundMarker(c, tail + sep, s, vs);
      Regroup("$", [c], tail, sep, rest);
    }
  }

  lemma PassesOverUnboundMarker(c: char, tail: string, s: string, vs: seq<string>)
    requires IsDigit(c) && |vs| < DigitOf(c, 10).value && DollarFree(tail)
    ensures Passes("$" + [c] + (tail + s), vs, |vs|) == "$" + [c] + (tail + Passes(s, vs, |vs|))
  {
    Assoc("$", [c], tail + s);
    Assoc("$", [c], tail + Passes(s, vs, |vs|));
    PassesOverUnbound(c, tail + s, vs, |vs|);
    PassesOverPlain([c], tail + s, vs, |vs|);
    PassesOverPlain(tail, s, vs, |vs|);
  }

  lemma FilledThen(v: string, tail: string, sep: string, rest: string)
    ensures v + (tail + sep + rest) == (v + tail) + sep + rest
  {
  }

  lemma Regroup(a: string, b: string, c: string, d: string, e: string)
    ensures a + (b + c) + d + e == a + b + (c + d + e)
  {
  }

  lemma MarkerFirst(n: nat, i: nat)
    requires i < n
    ensures Markers(n)[i..] == [Placeholder(i + 1)] + Markers(n)[i + 1..]
  {
    assert Markers(n)[i] == Placeholder(i + 1);
  }

  lemma FilledFirst(vs: seq<string>, n: nat, i: nat)
    requires i < n
    ensures AllFilled(vs, n)[i..] == [Filled(vs, i + 1)] + AllFilled(vs, n)[i + 1..]
  {
    assert AllFilled(vs, n)[i] == Filled(vs, i + 1);
  }

  lemma {:induction false} PassesOverMarkers(vs: seq<string>, n: nat, i: nat, z: string)
    requires i <= n && AllSealed(vs) && DollarFree(z)
    ensures Passes(Join(Markers(n)[i..]) + z, vs, |vs|) == Join(AllFilled(vs, n)[i..]) + z
    decreases n - i
  {
    var ms, fs := Markers(n), AllFilled(vs, n);
    if i == n {
      PassesOverPlain(z, "", vs, |vs|);
      PassesOfEmpty(vs, |vs|);
      assert z + "" == z && "" + z == z;
    } else {
      MarkerFirst(n, i);
      FilledFirst(vs, n, i);
      JoinCons(Placeholder(i + 1), ms[i + 1..], z);
      JoinCons(Filled(vs, i + 1), fs[i + 1..], z);
      PassesOverMarker(i + 1, Separator(ms[i + 1..]), Join(ms[i + 1..]) + z, vs);
      PassesOverMarkers(vs, n, i + 1, z);
    }
  }

  lemma {:induction false} PassesOfEmpty(vs: seq<string>, i: nat)
    requires i <= |vs|
    ensures Passes("", vs, i) == ""
    decreases i
  {
    if i > 0 { PassesOfEmpty(vs, i - 1); }
  }

  /** The statement `SybPreparedStatement` sends for any number of columns, with any number of values bound. */
  lemma GeneratedInsertFilled(table: string, names: seq<string>, vs: seq<string>, n: nat)
    requires DollarFree(table) && AllDollarFree(names) && AllSealed(vs)
    ensures FinalSQL(InsertText(table, names, Markers(n)), vs) == InsertText(table, names, AllFilled(vs, n))
  {
    var head := InsertHead(table, names);
    JoinDollarFree(names);
    PassesOverPlain(head, Join(Markers(n)) + ")", vs, |vs|);
    PassesOverMarkers(vs, n, 0, ")");
    assert Markers(n)[0..] == Markers(n) && AllFilled(vs, n)[0..] == AllFilled(vs, n);
    assert InsertText(table, names, Markers(n)) == head + (Join(Markers(n)) + ")");
    assert InsertText(table, names, AllFilled(vs, n)) == head + (Join(AllFilled(vs, n)) + ")");
  }

  // ---- value lists are uniquely readable ------------------------------------------------------

  predicate CommaFree(s: string) {
    ',' !in s
  }

  /** A quoted literal; the passes may have put digits behind it. */
  predicate QuotedWith(s: string, v: string, digits: string) {
    s == Quoted(v) + digits && CommaFree(digits) && (digits == "" || digits[0] != '\'')
  }

  predicate Unquoted(s: string) {
    s != "" && s[0] != '\'' && CommaFree(s)
  }

  ghost predicate Token(s: string) {
    Unquoted(s) || exists v, digits :: QuotedWith(s, v, digits)
  }

  lemma CommaSplit(a: string, b: string, x: string, y: string)
    requires CommaFree(a) && CommaFree(b) && a + x == b + y
    requires x != "" && x[0] == ',' && y != "" && y[0] == ','
    ensures a == b && x == y
  {
    var s := a + x;
    assert s[|a|] == ',' && s[|b|] == ',';
    assert (forall i :: 0 <= i < |a| ==> s[i] == a[i] != ',') && (forall i :: 0 <= i < |b| ==> s[i] == b[i] != ',');
    assert a == s[..|a|] && x == s[|a|..];
    assert b == s[..|b|] && y == s[|b|..];
  }

  lemma QuotedSplit(a: string, b: string, x: string, y: string, v: string, w: string, d: string, e: string)
    requires QuotedWith(a, v, d) && QuotedWith(b, w, e) && a + x == b + y
    requires x != "" && x[0] == ',' && y != "" && y[0] == ','
    ensures a == b && x == y
  {
    assert a + x == Quoted(v) + (d + x) && b + y == Quoted(w) + (e + y);
    QuotingRoundTrip(v, d + x);
    QuotingRoundTrip(w, e + y);
    CommaSplit(d, e, x, y);
  }

  lemma TokenSplit(a: string, b: string, x: string, y: string)
    requires Token(a) && Token(b) && a + x == b + y
    requires x != "" && x[0] == ',' && y != "" && y[0] == ','
    ensures a == b && x == y
  {
    assert (a + x)[0] == a[0] && (b + y)[0] == b[0];
    if Unquoted(a) {
      CommaSplit(a, b, x, y);
    } else {
      var v, d :| QuotedWith(a, v, d);
      var w, e :| QuotedWith(b, w, e);
      QuotedSplit(a, b, x, y, v, w, d, e);
    }
  }

  lemma {:induction false} JoinInjective(a: seq<string>, b: seq<string>)
    requires |a| == |b| && Join(a) == Join(b)
    requires (forall s <- a :: Token(s)) && (forall s <- b :: Token(s))
    ensures a == b
    decreases |a|
  {
    if 1 < |a| {
      TokenSplit(a[0], b[0], Comma + Join(a[1..]), Comma + Join(b[1..])) by {
        assert a[0] + (Comma + Join(a[1..])) == a[0] + Comma + Join(a[1..]);
        assert b[0] + (Comma + Join(b[1..])) == b[0] + Comma + Join(b[1..]);
      }
      assert (Comma + Join(a[1..]))[2..] == Join(a[1..]) && (Comma + Join(b[1..]))[2..] == Join(b[1..]);
      JoinInjective(a[1..], b[1..]);
      assert a == [a[0]] + a[1..] && b == [b[0]] + b[1..];
    }
  }

  lemma NumberIsToken(i: int, digits: string)
    requires forall c <- digits :: IsDigit(c)
    ensures Token(IntText(i) + digits)
  {
  }

  lemma QuotedIsToken(v: string, digits: string)
    requires forall c <- digits :: IsDigit(c)
    ensures Token(Quoted(v) + digits)
  {
    assert digits != "" ==> digits[0] in digits;
    assert QuotedWith(Quoted(v) + digits, v, digits);
  }

  // ---- columns --------------------------------------------------------------------------------

  predicate Plain(f: Field) {
    f.IntField? || f.TextField?
  }

  predicate AllPlain(cs: seq<Column>) {
    forall i :: 0 <= i < |cs| ==> Plain(cs[i].field)
  }

  predicate PlainEntity(e: Entity) {
    && DollarFree(e.tableName)
    && AllDollarFree(Names(NonKey(e.columns, e.primaryKey)))
    && AllPlain(NonKey(e.columns, e.primaryKey))
  }

  function Stored(f: Field): string
    requires Plain(f)
  {
    if f.IntField? then IntText(f.value) else Quoted(f.text)
  }

  function AllStored(cs: seq<Column>): (r: seq<string>)
    requires AllPlain(cs)
    ensures |r| == |cs|
  {
    seq(|cs|, i requires 0 <= i < |cs| => Stored(cs[i].field))
  }

  lemma StoredKind(f: Field)
    requires Plain(f)
    ensures BoundText(f) == [Stored(f)] && Sealed(Stored(f)) && Leads(Stored(f))
  {
    match f
    case IntField(v) => StoredTextsAreSealed(v, "");
    case TextField(text) => StoredTextsAreSealed(0, text);
  }

  lemma AllStoredKind(cs: seq<Column>)
    requires AllPlain(cs)
    ensures AllSealed(AllStored(cs)) && AllLead(AllStored(cs))
  {
    forall i | 0 <= i < |cs| ensures Sealed(AllStored(cs)[i]) && Leads(AllStored(cs)[i]) {
      StoredKind(cs[i].field);
    }
  }

  lemma StoredSnoc(before: seq<Column>, last: Column)
    requires AllPlain(before) && Plain(last.field)
    ensures AllPlain(before + [last]) && AllStored(before + [last]) == AllStored(before) + [Stored(last.field)]
  {
  }

  /** Every column is bound, in order. */
  lemma {:induction false} BoundAreStored(cs: seq<Column>)
    requires AllPlain(cs)
    ensures BoundTexts(cs) == AllStored(cs)
  {
    if cs != [] {
      var before, last := cs[..|cs| - 1], cs[|cs| - 1];
      assert cs == before + [last];
      BoundAreStored(before);
      StoredKind(last.field);
      StoredSnoc(before, last);
    }
  }

  lemma StoredIsToken(f: Field, digits: string)
    requires Plain(f) && forall c <- digits :: IsDigit(c)
    ensures Token(Stored(f) + digits)
  {
    match f
    case IntField(v) => NumberIsToken(v, digits);
    case TextField(text) => QuotedIsToken(text, digits);
  }

  lemma LiteralIsToken(f: Field)
    requires Plain(f)
    ensures Token(Literal(f))
  {
    match f
    case IntField(v) =>
      NumberIsToken(v, "");
      assert IntText(v) + "" == IntText(v);
    case TextField(text) =>
      EscapedIsDoubled(text);
      QuotedIsToken(WithBackslashes(text), "");
      assert Quoted(WithBackslashes(text)) + "" == Literal(f);
  }

  lemma TailIsDigits(k: nat)
    ensures forall c <- Tail(k) :: IsDigit(c)
  {
    assert forall c <- Tail(k) :: c in Decimal(k);
  }

  // ---- value lists that part ------------------------------------------------------------------

  /** Lists of values that first differ at values which part give texts that part. */
  lemma {:induction false} JoinApart(a: seq<string>, b: seq<string>, k: nat, z: string)
    requires k < |a| == |b| && a[..k] == b[..k] && Diverge(a[k], b[k])
    ensures Diverge(Join(a) + z, Join(b) + z)
    decreases k
  {
    JoinHead(a, z);
    JoinHead(b, z);
    var sep, x, y := Separator(a[1..]), Join(a[1..]) + z, Join(b[1..]) + z;
    assert Separator(b[1..]) == sep;
    if k == 0 {
      HeadsDiverge(a[0], sep + x, b[0], sep + y);
    } else {
      SameTails(a, b, k);
      JoinApart(a[1..], b[1..], k - 1, z);
      PrefixedDiverge(sep, x, y);
      PrefixedDiverge(a[0], sep + x, sep + y);
    }
  }

  lemma SameTails(a: seq<string>, b: seq<string>, k: nat)
    requires 0 < k < |a| == |b| && a[..k] == b[..k]
    ensures a[0] == b[0] && a[1..][..k - 1] == b[1..][..k - 1]
    ensures a[1..][k - 1] == a[k] && b[1..][k - 1] == b[k]
  {
    assert a[0] == a[..k][0] && b[0] == b[..k][0];
    assert a[1..][..k - 1] == a[..k][1..] && b[1..][..k - 1] == b[..k][1..];
  }

  lemma JoinHead(a: seq<string>, z: string)
    requires a != []
    ensures Join(a) + z == a[0] + (Separator(a[1..]) + (Join(a[1..]) + z))
  {
    assert a == [a[0]] + a[1..];
    JoinCons(a[0], a[1..], z);
  }

  lemma InsertsApart(table: string, names: seq<string>, a: seq<string>, b: seq<string>, k: nat)
    requires k < |a| == |b| && a[..k] == b[..k] && Diverge(a[k], b[k])
    ensures InsertText(table, names, a) != InsertText(table, names, b)
  {
    JoinApart(a, b, k, ")");
    PrefixedDiverge(InsertHead(table, names), Join(a) + ")", Join(b) + ")");
    assert InsertText(table, names, a) == InsertHead(table, names) + (Join(a) + ")");
    assert InsertText(table, names, b) == InsertHead(table, names) + (Join(b) + ")");
  }

  lemma SameTextIff(table: string, names: seq<string>, a: seq<string>, b: seq<string>)
    requires |a| == |b| && forall i :: 0 <= i < |a| ==> Token(a[i]) && Token(b[i])
    ensures InsertText(table, names, a) == InsertText(table, names, b) <==> a == b
  {
    var head := InsertHead(table, names);
    var s, t := InsertText(table, names, a), InsertText(table, names, b);
    assert s == head + Join(a) + ")" && t == head + Join(b) + ")";
    assert s[|head|..|s| - 1] == Join(a) && t[|head|..|t| - 1] == Join(b);
    if s == t { JoinInjective(a, b); }
  }

  /** The first `k` values are the same. */
  predicate SameUpTo(a: seq<string>, b: seq<string>, k: nat) {
    k <= |a| && k <= |b| && a[..k] == b[..k]
  }

  lemma {:induction false} FirstDifference(a: seq<string>, b: seq<string>, n: nat) returns (k: nat)
    requires n <= |a| == |b| && a[..n] != b[..n]
    ensures k < n && SameUpTo(a, b, k) && a[k] != b[k]
    decreases n
  {
    if a[..n - 1] != b[..n - 1] {
      k := FirstDifference(a, b, n - 1);
    } else {
      k := n - 1;
      assert a[..n] == a[..k] + [a[k]] && b[..n] == b[..k] + [b[k]];
    }
  }

  function FirstNine(n: nat): nat {
    if n < 9 then n else 9
  }

  /**
   Two ways to compare lists of values: among the first nine, values that differ part; and if those are
   the same, all values are tokens.
   */
  ghost predicate Comparable(a: seq<string>, b: seq<string>) {
    && |a| == |b|
    && (forall i :: 0 <= i < FirstNine(|a|) ==> a[i] == b[i] || Diverge(a[i], b[i]))
    && (SameUpTo(a, b, FirstNine(|a|)) ==> forall i :: 0 <= i < |a| ==> Token(a[i]) && Token(b[i]))
  }

  lemma ComparableTextsIff(table: string, names: seq<string>, a: seq<string>, b: seq<string>)
    requires Comparable(a, b)
    ensures InsertText(table, names, a) == InsertText(table, names, b) <==> a == b
  {
    var n := FirstNine(|a|);
    if SameUpTo(a, b, n) {
      SameTextIff(table, names, a, b);
    } else {
      var k := FirstDifference(a, b, n);
      InsertsApart(table, names, a, b, k);
    }
  }

  // ---- the text insertPS ends up with ---------------------------------------------------------

  /** No placeholder of a later column occurs in the string of column `k`. */
  predicate TextSurvives(cs: seq<Column>, k: nat)
    requires 1 <= k <= |cs|
  {
    cs[k - 1].field.TextField? ==> Undisturbed(cs[k - 1].field.text, k, |cs|)
  }

  predicate NineSurvive(cs: seq<Column>) {
    forall k :: 1 <= k <= FirstNine(|cs|) ==> TextSurvives(cs, k)
  }

  /** Up to the ninth column, what comes out is the stored text exactly when its string survives. */
  lemma FilledIsStoredIff(cs: seq<Column>, k: nat)
    requires 1 <= k <= |cs| && k < 10 && AllPlain(cs)
    ensures var x, v := Filled(AllStored(cs), k), Stored(cs[k - 1].field);
            if TextSurvives(cs, k) then x == v else cs[k - 1].field.TextField? && Changed(v, x) && x != v
  {
    var vs, v := AllStored(cs), Stored(cs[k - 1].field);
    AllStoredKind(cs);
    NoTail(k);
    assert Filled(vs, k) == Rescan(v, vs, k, |cs|);
    RescanIff(v, vs, k, |cs|);
    match cs[k - 1].field
    case IntField(i) =>
      IntTextDollarFree(i);
      RescanOfPlain(v, vs, k, |cs|);
    case TextField(text) =>
      UndisturbedQuotedIff(text, k, |cs|);
      if !Undisturbed(v, k, |cs|) { ChangedDiverges(v, Filled(vs, k)); }
  }

  lemma NoTail(k: nat)
    requires 1 <= k < 10
    ensures Lead(k) == k && Tail(k) == ""
  {
    DecimalLead(k);
  }

  lemma LeadIsDigit(k: nat)
    requires 1 <= k
    ensures Lead(k) < 10
  {
  }

  /** A later column gets what the column of its leading digit gets, and the remaining digits. */
  lemma FilledOfLead(vs: seq<string>, k: nat)
    requires 1 <= k <= |vs|
    ensures Filled(vs, k) == Filled(vs, Lead(k)) + Tail(k)
  {
    LeadIsDigit(k);
    NoTail(Lead(k));
    var v := Rescan(vs[Lead(k) - 1], vs, Lead(k), |vs|);
    assert v + "" == v;
  }

  /** When the strings of the first nine columns survive, every value that comes out is a token. */
  lemma FilledIsToken(cs: seq<Column>, k: nat)
    requires 1 <= k <= |cs| && AllPlain(cs) && NineSurvive(cs)
    ensures Filled(AllStored(cs), k) == Stored(cs[Lead(k) - 1].field) + Tail(k)
    ensures Token(Filled(AllStored(cs), k))
  {
    LeadIsDigit(k);
    assert TextSurvives(cs, Lead(k));
    FilledIsStoredIff(cs, Lead(k));
    FilledOfLead(AllStored(cs), k);
    TailIsDigits(k);
    StoredIsToken(cs[Lead(k) - 1].field, Tail(k));
  }

  // ---- against the literals of insert ---------------------------------------------------------

  /** Both paths write the same value for column `k`. */
  predicate SameValue(cs: seq<Column>, k: nat)
    requires 1 <= k <= |cs| && AllPlain(cs)
  {
    if k < 10 then TextSurvives(cs, k) && (cs[k - 1].field.TextField? ==> '\\' !in cs[k - 1].field.text)
    else Literal(cs[k - 1].field) == Stored(cs[Lead(k) - 1].field) + Tail(k)
  }

  lemma FilledAgainstLiteral(cs: seq<Column>, k: nat)
    requires 1 <= k <= |cs| && k < 10 && AllPlain(cs)
    ensures var x, literal := Filled(AllStored(cs), k), Literal(cs[k - 1].field);
            if SameValue(cs, k) then x == literal else x != literal && Diverge(x, literal)
  {
    FilledIsStoredIff(cs, k);
    match cs[k - 1].field
    case IntField(_) =>
    case TextField(text) => RenderingsDiverge(text, Filled(AllStored(cs), k));
  }

  /** The same, of the lists' entries. */
  lemma LiteralAt(cs: seq<Column>, i: nat)
    requires i < FirstNine(|cs|) && AllPlain(cs)
    ensures var x, y := AllFilled(AllStored(cs), |cs|)[i], Literals(cs)[i];
            (x == y <==> SameValue(cs, i + 1)) && (x == y || Diverge(x, y))
  {
    FilledAgainstLiteral(cs, i + 1);
  }

  lemma LaterLiteralAt(cs: seq<Column>, i: nat)
    requires i < |cs| && AllPlain(cs) && NineSurvive(cs)
    ensures var x, y := AllFilled(AllStored(cs), |cs|)[i], Literals(cs)[i];
            (x == y <==> SameValue(cs, i + 1)) && Token(x) && Token(y)
  {
    FilledIsToken(cs, i + 1);
    LiteralIsToken(cs[i].field);
    assert AllFilled(AllStored(cs), |cs|)[i] == Filled(AllStored(cs), i + 1) && Literals(cs)[i] == Literal(cs[i].field);
    if i < 9 { LiteralAt(cs, i); }
  }

  lemma NineFromLiterals(cs: seq<Column>)
    requires AllPlain(cs) && SameUpTo(AllFilled(AllStored(cs), |cs|), Literals(cs), FirstNine(|cs|))
    ensures NineSurvive(cs)
  {
    var n := FirstNine(|cs|);
    forall k | 1 <= k <= n ensures TextSurvives(cs, k) {
      LiteralAt(cs, k - 1);
      assert AllFilled(AllStored(cs), |cs|)[..n][k - 1] == Literals(cs)[..n][k - 1];
    }
  }

  lemma LiteralsComparable(cs: seq<Column>)
    requires AllPlain(cs)
    ensures Comparable(AllFilled(AllStored(cs), |cs|), Literals(cs))
  {
    var fs, ls, n := AllFilled(AllStored(cs), |cs|), Literals(cs), FirstNine(|cs|);
    forall i | 0 <= i < n ensures fs[i] == ls[i] || Diverge(fs[i], ls[i]) {
      LiteralAt(cs, i);
    }
    if SameUpTo(fs, ls, n) {
      NineFromLiterals(cs);
      forall i | 0 <= i < |cs| ensures Token(fs[i]) && Token(ls[i]) {
        LaterLiteralAt(cs, i);
      }
    }
  }

  lemma LiteralsSameIff(cs: seq<Column>)
    requires AllPlain(cs)
    ensures AllFilled(AllStored(cs), |cs|) == Literals(cs) <==> forall k :: 1 <= k <= |cs| ==> SameValue(cs, k)
  {
    var fs, ls := AllFilled(AllStored(cs), |cs|), Literals(cs);
    if fs == ls {
      NineFromLiterals(cs);
      forall k | 1 <= k <= |cs| ensures SameValue(cs, k) { LaterLiteralAt(cs, k - 1); }
    }
    if forall k :: 1 <= k <= |cs| ==> SameValue(cs, k) {
      NineOfSame(cs);
      forall i | 0 <= i < |cs| ensures fs[i] == ls[i] {
        assert SameValue(cs, i + 1);
        LaterLiteralAt(cs, i);
      }
    }
  }

  lemma NineOfSame(cs: seq<Column>)
    requires AllPlain(cs) && forall k :: 1 <= k <= |cs| ==> SameValue(cs, k)
    ensures NineSurvive(cs)
  {
    forall k | 1 <= k <= FirstNine(|cs|) ensures TextSurvives(cs, k) { assert SameValue(cs, k); }
  }

  /**
   The two insert paths send the same statement exactly when no string among the first nine columns
   has a backslash or contains the placeholder of a later column, and every later column happens to be
   the column of its number's leading digit followed by the remaining digits.
   */
  lemma {:induction false} InsertPathsAgreeIff(e: Entity)
    requires PlainEntity(e)
    ensures var cs := NonKey(e.columns, e.primaryKey);
            InsertPSSQL(e) == InsertSQL(e) <==> forall k :: 1 <= k <= |cs| ==> SameValue(cs, k)
  {
    var cs := NonKey(e.columns, e.primaryKey);
    InsertPSText(e);
    LiteralsSameIff(cs);
    LiteralsComparable(cs);
    ComparableTextsIff(e.tableName, Names(cs), AllFilled(AllStored(cs), |cs|), Literals(cs));
  }

  lemma InsertPSText(e: Entity)
    requires PlainEntity(e)
    ensures var cs := NonKey(e.columns, e.primaryKey);
            InsertPSSQL(e) == InsertText(e.tableName, Names(cs), AllFilled(AllStored(cs), |cs|))
  {
    var cs := NonKey(e.columns, e.primaryKey);
    BoundAreStored(cs);
    AllStoredKind(cs);
    GeneratedInsertFilled(e.tableName, Names(cs), AllStored(cs), |cs|);
  }

  /** A string that both paths render alike. */
  predicate Harmless(cs: seq<Column>, i: nat)
    requires i < |cs|
  {
    cs[i].field.TextField? ==>
      && '\\' !in cs[i].field.text
      && forall j :: i + 1 < j <= |cs| ==> !Occurs(Placeholder(j), cs[i].field.text)
  }

  /** Up to nine columns, a backslash or the placeholder of a later column sets the paths apart, and nothing else. */
  lemma NineColumnsAgreeIff(e: Entity)
    requires PlainEntity(e) && |NonKey(e.columns, e.primaryKey)| <= 9
    ensures var cs := NonKey(e.columns, e.primaryKey);
            InsertPSSQL(e) == InsertSQL(e) <==> forall i :: 0 <= i < |cs| ==> Harmless(cs, i)
  {
    var cs := NonKey(e.columns, e.primaryKey);
    InsertPathsAgreeIff(e);
    if forall k :: 1 <= k <= |cs| ==> SameValue(cs, k) {
      forall i | 0 <= i < |cs| ensures Harmless(cs, i) { assert SameValue(cs, i + 1); }
    }
    if forall i :: 0 <= i < |cs| ==> Harmless(cs, i) {
      forall k | 1 <= k <= |cs| ensures SameValue(cs, k) { assert Harmless(cs, k - 1); }
    }
  }

  // ---- against the simultaneous substitution --------------------------------------------------

  /** `insertPS` ends up with column `k`'s own text. */
  predicate OwnValue(cs: seq<Column>, k: nat)
    requires 1 <= k <= |cs| && AllPlain(cs)
  {
    if k < 10 then TextSurvives(cs, k)
    else Stored(cs[k - 1].field) == Stored(cs[Lead(k) - 1].field) + Tail(k)
  }

  lemma StoredAt(cs: seq<Column>, i: nat)
    requires i < FirstNine(|cs|) && AllPlain(cs)
    ensures var x, v := AllFilled(AllStored(cs), |cs|)[i], AllStored(cs)[i];
            (x == v <==> OwnValue(cs, i + 1)) && (x == v || Diverge(x, v))
  {
    FilledIsStoredIff(cs, i + 1);
    if !TextSurvives(cs, i + 1) { ChangedDiverges(Stored(cs[i].field), Filled(AllStored(cs), i + 1)); }
  }

  lemma LaterStoredAt(cs: seq<Column>, i: nat)
    requires i < |cs| && AllPlain(cs) && NineSurvive(cs)
    ensures var x, v := AllFilled(AllStored(cs), |cs|)[i], AllStored(cs)[i];
            (x == v <==> OwnValue(cs, i + 1)) && Token(x) && Token(v)
  {
    FilledIsToken(cs, i + 1);
    StoredIsToken(cs[i].field, "");
    assert Stored(cs[i].field) + "" == Stored(cs[i].field);
    if i < 9 { StoredAt(cs, i); }
  }

  lemma NineFromStored(cs: seq<Column>)
    requires AllPlain(cs) && SameUpTo(AllFilled(AllStored(cs), |cs|), AllStored(cs), FirstNine(|cs|))
    ensures NineSurvive(cs)
  {
    var n := FirstNine(|cs|);
    forall k | 1 <= k <= n ensures TextSurvives(cs, k) {
      StoredAt(cs, k - 1);
      assert AllFilled(AllStored(cs), |cs|)[..n][k - 1] == AllStored(cs)[..n][k - 1];
    }
  }

  lemma StoredComparable(cs: seq<Column>)
    requires AllPlain(cs)
    ensures Comparable(AllFilled(AllStored(cs), |cs|), AllStored(cs))
  {
    var fs, vs, n := AllFilled(AllStored(cs), |cs|), AllStored(cs), FirstNine(|cs|);
    forall i | 0 <= i < n ensures fs[i] == vs[i] || Diverge(fs[i], vs[i]) {
      StoredAt(cs, i);
    }
    if SameUpTo(fs, vs, n) {
      NineFromStored(cs);
      forall i | 0 <= i < |cs| ensures Token(fs[i]) && Token(vs[i]) {
        LaterStoredAt(cs, i);
      }
    }
  }

  lemma StoredSameIff(cs: seq<Column>)
    requires AllPlain(cs)
    ensures AllFilled(AllStored(cs), |cs|) == AllStored(cs) <==> forall k :: 1 <= k <= |cs| ==> OwnValue(cs, k)
  {
    var fs, vs := AllFilled(AllStored(cs), |cs|), AllStored(cs);
    if fs == vs {
      NineFromStored(cs);
      forall k | 1 <= k <= |cs| ensures OwnValue(cs, k) { LaterStoredAt(cs, k - 1); }
    }
    if forall k :: 1 <= k <= |cs| ==> OwnValue(cs, k) {
      forall k | 1 <= k <= FirstNine(|cs|) ensures TextSurvives(cs, k) { assert OwnValue(cs, k); }
      forall i | 0 <= i < |cs| ensures fs[i] == vs[i] {
        assert OwnValue(cs, i + 1);
        LaterStoredAt(cs, i);
      }
    }
  }

  /**
   What `insertPS` sends is the simultaneous substitution of the generated statement exactly when no
   string among the first nine columns contains the placeholder of a later column, and every later
   column happens to come out right.
   */
  lemma {:induction false} InsertPSIsSimultaneousIff(e: Entity)
    requires PlainEntity(e)
    ensures var cs := NonKey(e.columns, e.primaryKey);
            InsertPSSQL(e) == Subst(InsertText(e.tableName, Names(cs), Markers(|cs|)), BoundTexts(cs)) <==>
            forall k :: 1 <= k <= |cs| ==> OwnValue(cs, k)
  {
    var cs := NonKey(e.columns, e.primaryKey);
    InsertPSText(e);
    BoundAreStored(cs);
    StoredSameIff(cs);
    StoredComparable(cs);
    InsertSubst(e.tableName, Names(cs), AllStored(cs));
    ComparableTextsIff(e.tableName, Names(cs), AllFilled(AllStored(cs), |cs|), AllStored(cs));
  }

  /** Ten integer columns of one value: the tenth is stored as ten times that value, or "-10", "00". */
  lemma TenthColumnGoesWrong(table: string, names: seq<string>, value: int)
    requires |names| == 10 && DollarFree(table) && AllDollarFree(names) && "" !in names
    ensures var e := Entity(table, "", seq(10, i requires 0 <= i < 10 => Column(names[i], IntField(value))));
            InsertPSSQL(e) != InsertSQL(e)
  {
    var cs := seq(10, i requires 0 <= i < 10 => Column(names[i], IntField(value)));
    NothingIsKey(cs, "");
    assert Names(cs) == names;
    var e := Entity(table, "", cs);
    InsertPathsAgreeIff(e);
    assert Decimal(10) == "10";
    assert Lead(10) == 1 && Tail(10) == "0";
    assert |IntText(value) + "0"| == |IntText(value)| + 1;
    assert !SameValue(cs, 10);
  }

  lemma NothingIsKey(cs: seq<Column>, key: string)
    requires forall c <- cs :: c.name != key
    ensures NonKey(cs, key) == cs
  {
    if cs != [] {
      NothingIsKey(cs[..|cs| - 1], key);
      assert cs == cs[..|cs| - 1] + [cs[|cs| - 1]];
    }
  }
}
