/**
 `SybaseStatement`: escapes in place while binding, and replaces the first occurrence of each
 placeholder when it builds the SQL. On a template with its placeholders in order this fills them from
 the left, unless an inserted text contains a later placeholder.
 */
module SybaseStatements {
  import opened Wrappers
  import opened Text
  import opened SqlLiterals
  import opened Placeholders
  import opened Templates
  import opened Rescanning
  import SybPreparedStatements

  function Bound(ps: seq<string>, index: nat, text: string): (r: seq<string>)
    requires 0 < index
    ensures |r| == if index <= |ps| then |ps| else index
    ensures r[index - 1] == text && forall i :: 0 <= i < |ps| && i != index - 1 ==> r[i] == ps[i]
    ensures forall i :: |ps| <= i < index - 1 ==> r[i] == ""
  {
    SybPreparedStatements.Bound(ps, index, text)
  }

  function ReplaceFirst(s: string, pat: string, val: string): string {
    match Find(s, pat, 0)
    case Some(pos) => Replace(s, pos, |pat|, val)
    case None => s
  }

  /** The text after the first `i` parameters. */
  function Filled(sql: string, ps: seq<string>, i: nat): string
    requires i <= |ps|
  {
    if i == 0 then sql else ReplaceFirst(Filled(sql, ps, i - 1), Placeholder(i), ps[i - 1])
  }

  /** Each step replaces the first occurrence of its placeholder, wherever that is, and nothing if there is none. */
  lemma StepReplacesFirst(sql: string, ps: seq<string>, k: nat, before: string, after: string, pat: string)
    returns (first: Option<nat>)
    requires 1 <= k <= |ps| && pat == "$" + Decimal(k)
    requires before == Filled(sql, ps, k - 1) && after == Filled(sql, ps, k)
    ensures k == 1 ==> before == sql
    ensures first == None ==> after == before && forall j :: 0 <= j ==> !MatchAt(before, pat, j)
    ensures match first
            case None => true
            case Some(q) =>
              && MatchAt(before, pat, q) && (forall j :: 0 <= j < q ==> !MatchAt(before, pat, j))
              && after == before[..q] + ps[k - 1] + before[q + |pat|..]
  {
    FindsFirst(before, pat, 0);
    first := Find(before, pat, 0);
  }

  class SybaseStatement {
    const sql: string
    var paramValues: seq<string>

    constructor (sql: string)
      ensures this.sql == sql && paramValues == []
    {
      this.sql, paramValues := sql, [];
    }

    method Store(index: nat, text: string)
      requires 0 < index
      modifies this
      ensures paramValues == Bound(old(paramValues), index, text)
    {
      if index > |paramValues| {
        paramValues := SybPreparedStatements.Resized(paramValues, index);
      }
      paramValues := paramValues[index - 1 := text];
    }

    /** `bindInt` and `bindLong`: the two print alike. */
    method BindInteger(index: nat, value: int)
      requires 0 < index
      modifies this
      ensures paramValues == Bound(old(paramValues), index, IntText(value))
    {
      Store(index, IntText(value));
    }

    method BindString(index: nat, value: string)
      requires 0 < index
      modifies this
      ensures paramValues == Bound(old(paramValues), index, Quoted(value))
    {
      var escaped := EscapeInPlace(value);
      Store(index, "'" + escaped + "'");
    }

    method BuildSQL() returns (result: string)
      ensures result == Filled(sql, paramValues, |paramValues|)
    {
      result := sql;
      var paramIndex := 1;
      for i := 0 to |paramValues|
        invariant paramIndex == i + 1 && result == Filled(sql, paramValues, i)
      {
        var placeholder := "$" + Decimal(paramIndex);
        var pos := Find(result, placeholder, 0);
        if pos.Some? {
          result := Replace(result, pos.value, |placeholder|, paramValues[i]);
        }
        paramIndex := paramIndex + 1;
      }
    }
  }

  // ---- where the first occurrence is ----------------------------------------------------------

  /** If no inserted text holds it, the placeholder being replaced is the first match of its own text. */
  lemma FirstDollarIsPlaceholder(a: string, k: nat, b: string, val: string)
    requires !Occurs(Placeholder(k), a)
    ensures ReplaceFirst(a + Placeholder(k) + b, Placeholder(k), val) == a + val + b
  {
    var s, pat := a + Placeholder(k) + b, Placeholder(k);
    PlaceholderIsAt(a, k, b);
    var q := FirstOccurrence(pat, s);
    if q < |a| {
      MatchesEarly(a, k, b, q);
      OccursAt(pat, a, q);
      assert false;
    }
    assert q == |a|;
    assert s[..|a|] == a && s[|a| + |pat|..] == b;
  }

  lemma PlaceholderIsAt(a: string, k: nat, b: string)
    ensures MatchAt(a + Placeholder(k) + b, Placeholder(k), |a|) && Occurs(Placeholder(k), a + Placeholder(k) + b)
  {
    var s, pat := a + Placeholder(k) + b, Placeholder(k);
    assert s[|a|..|a| + |pat|] == pat;
    OccursAt(pat, s, |a|);
  }

  /** A match before the placeholder ends before it, since only its first character is a `$`. */
  lemma MatchesEarly(a: string, k: nat, b: string, q: nat)
    requires q < |a| && MatchAt(a + Placeholder(k) + b, Placeholder(k), q)
    ensures MatchAt(a, Placeholder(k), q)
  {
    var s, pat := a + Placeholder(k) + b, Placeholder(k);
    MatchChars(s, k, q);
    assert s[|a|] == pat[0] == '$';
    assert q + |pat| <= |a|;
    assert a[q..q + |pat|] == s[q..q + |pat|];
  }

  /** When `a` holds the placeholder, that is where the search ends. */
  lemma FoundEarly(a: string, k: nat, b: string) returns (q: nat)
    requires Occurs(Placeholder(k), a)
    ensures var s := a + Placeholder(k) + b;
            Find(s, Placeholder(k), 0) == Some(q) && q + |Placeholder(k)| <= |a| && s[q] == '$'
  {
    var s, pat := a + Placeholder(k) + b, Placeholder(k);
    var first := FirstOccurrence(pat, a);
    assert s[first..first + |pat|] == a[first..first + |pat|];
    assert MatchAt(s, pat, first);
    OccursAt(pat, s, first);
    q := FirstOccurrence(pat, s);
    assert q <= first;
    MatchesEarly(a, k, b, q);
    MatchChars(s, k, q);
  }

  /** An occurrence in `a + seg + v` lies in `a` or in `v`. */
  lemma OccursInParts(a: string, seg: string, v: string, k: nat)
    requires DollarFree(seg) && (a == "" || (seg != "" && !StartsDigit(seg)))
    ensures Occurs(Placeholder(k), a + seg + v) <==> Occurs(Placeholder(k), a) || Occurs(Placeholder(k), v)
  {
    var s, pat := a + seg + v, Placeholder(k);
    if Occurs(pat, a) {
      OccursBetween(pat, "", a, seg + v);
      assert "" + a + (seg + v) == s;
    }
    if Occurs(pat, v) {
      OccursBetween(pat, a + seg, v, "");
      assert a + seg + v + "" == s;
    }
    if Occurs(pat, s) {
      var q := FirstOccurrence(pat, s);
      MatchInParts(a, seg, v, k, q);
    }
  }

  lemma MatchInParts(a: string, seg: string, v: string, k: nat, q: nat)
    requires DollarFree(seg) && (a == "" || (seg != "" && !StartsDigit(seg)))
    requires MatchAt(a + seg + v, Placeholder(k), q)
    ensures Occurs(Placeholder(k), a) || Occurs(Placeholder(k), v)
  {
    var s, pat := a + seg + v, Placeholder(k);
    MatchChars(s, k, q);
    if q < |a| {
      assert s[|a|] == seg[0];
      assert q + |pat| <= |a|;
      assert a[q..q + |pat|] == s[q..q + |pat|];
      OccursAt(pat, a, q);
    } else {
      assert forall i :: 0 <= i < |seg| ==> s[|a| + i] == seg[i] != '$';
      assert |a| + |seg| <= q by { assert s[|a| + (q - |a|)] == '$'; }
      var p := q - |a| - |seg|;
      assert v[p..p + |pat|] == s[q..q + |pat|];
      OccursAt(pat, v, p);
    }
  }

  // ---- templates whose placeholders come in order ---------------------------------------------

  /** A replacement at a `$` of a text that has kept it. */
  lemma ChangedStays(v: string, x: string, k: nat, val: string)
    requires Changed(v, x) && Leads(val)
    ensures Changed(v, ReplaceFirst(x, Placeholder(k), val))
  {
    var pat := Placeholder(k);
    FindsFirst(x, pat, 0);
    if Occurs(pat, x) {
      var q := Find(x, pat, 0).value;
      MatchChars(x, k, q);
      OverwrittenElsewhere(v, x, q, |pat|, val);
    }
  }

  lemma OverwrittenElsewhere(v: string, x: string, q: nat, len: nat, val: string)
    requires Changed(v, x) && Leads(val) && 0 < len && q + len <= |x| && x[q] == '$'
    ensures Changed(v, Replace(x, q, len, val))
  {
    var p: nat :| ChangedAt(v, x, p);
    assert p != q;
    OverwrittenAt(v, x, q, len, val, x[q + len..]);
  }

  lemma {:induction false} ChangedForGood(v: string, sql: string, vs: seq<string>, i: nat, k: nat)
    requires i <= k <= |vs| && AllLead(vs) && Changed(v, Filled(sql, vs, i))
    ensures Changed(v, Filled(sql, vs, k))
    decreases k
  {
    if i < k {
      ChangedForGood(v, sql, vs, i, k - 1);
      ChangedStays(v, Filled(sql, vs, k - 1), k, vs[k - 1]);
    }
  }

  /** When an inserted text holds the placeholder, it is overwritten there instead. */
  lemma InsertedIsOverwritten(a: string, k: nat, b: string, val: string, c: string)
    requires Occurs(Placeholder(k), a) && Leads(val)
    ensures Changed(a + c, ReplaceFirst(a + Placeholder(k) + b, Placeholder(k), val))
  {
    var q := FoundEarly(a, k, b);
    OverwrittenIn(a, c, a + Placeholder(k) + b, q, |Placeholder(k)|, val);
  }

  lemma OverwrittenIn(a: string, c: string, s: string, q: nat, len: nat, val: string)
    requires a <= s && q < |a| && q + len <= |s| && s[q] == '$' && Leads(val)
    ensures Changed(a + c, Replace(s, q, len, val))
  {
    var v, y := a + c, Replace(s, q, len, val);
    assert v[..q] == a[..q] == s[..q] == y[..q];
    assert v[q] == a[q] == s[q] && y[q] == val[0];
    assert ChangedAt(v, y, q);
  }

  /** The texts from the `i`-th on survive, and `a` does too. */
  predicate AllSurvive(a: string, vs: seq<string>, i: nat)
  {
    Undisturbed(a, i, |vs|) && forall m :: i <= m < |vs| ==> Undisturbed(vs[m], m + 1, |vs|)
  }

  lemma SurviveNext(a: string, seg: string, vs: seq<string>, i: nat)
    requires i < |vs| && DollarFree(seg) && (a == "" || (seg != "" && !StartsDigit(seg)))
    ensures AllSurvive(a, vs, i) <==> !Occurs(Placeholder(i + 1), a) && AllSurvive(a + seg + vs[i], vs, i + 1)
  {
    forall j | i + 1 < j <= |vs|
      ensures Occurs(Placeholder(j), a + seg + vs[i]) <==> Occurs(Placeholder(j), a) || Occurs(Placeholder(j), vs[i])
    {
      OccursInParts(a, seg, vs[i], j);
    }
  }

  /** What an in-order template is to become: the texts in order, then the placeholders no text was left for. */
  function FilledInOrder(a: string, segs: seq<string>, vs: seq<string>, i: nat, n: nat): string
    requires i <= |vs| <= n && |segs| == n - i + 1
  {
    a + Weave(segs, vs[i..] + PlaceholdersFrom(|vs| + 1, n - |vs|))
  }

  lemma FilledInOrderStep(a: string, segs: seq<string>, vs: seq<string>, i: nat, n: nat)
    requires i < |vs| <= n && |segs| == n - i + 1
    ensures FilledInOrder(a, segs, vs, i, n) == FilledInOrder(a + segs[0] + vs[i], segs[1..], vs, i + 1, n)
  {
    var fills := vs[i..] + PlaceholdersFrom(|vs| + 1, n - |vs|);
    assert fills[1..] == vs[i + 1..] + PlaceholdersFrom(|vs| + 1, n - |vs|);
    WeaveSplit(a, segs, fills);
  }

  lemma UnfilledStep(a: string, segs: seq<string>, i: nat, n: nat)
    requires i < n && |segs| == n - i + 1
    ensures a + Weave(segs, PlaceholdersFrom(i + 1, n - i)) ==
            a + segs[0] + Placeholder(i + 1) + Weave(segs[1..], PlaceholdersFrom(i + 2, n - i - 1))
  {
    var ps := PlaceholdersFrom(i + 1, n - i);
    assert ps[1..] == PlaceholdersFrom(i + 2, n - i - 1);
    WeaveSplit(a, segs, ps);
  }

  /**
   First-occurrence replacement fills an in-order template of `n` placeholders from the left, for any
   `n`, as long as no text inserted before contains the placeholder whose turn it is; and otherwise it
   overwrites a `$` that should have stayed.
   */
  lemma {:induction false} InOrderIsFilled(a: string, segs: seq<string>, vs: seq<string>, i: nat, n: nat, sql: string)
    requires i <= |vs| <= n && |segs| == n - i + 1 && SafeSegments(segs)
    requires a == "" || (!StartsDigit(segs[0]) && (1 < |segs| ==> segs[0] != ""))
    requires Filled(sql, vs, i) == a + Weave(segs, PlaceholdersFrom(i + 1, n - i))
    ensures AllSurvive(a, vs, i) ==> Filled(sql, vs, |vs|) == FilledInOrder(a, segs, vs, i, n)
    ensures !AllSurvive(a, vs, i) && AllLead(vs) ==> Changed(FilledInOrder(a, segs, vs, i, n), Filled(sql, vs, |vs|))
    decreases |vs| - i
  {
    if i == |vs| {
      assert vs[i..] + PlaceholdersFrom(|vs| + 1, n - |vs|) == PlaceholdersFrom(i + 1, n - i);
    } else {
      var b := Weave(segs[1..], PlaceholdersFrom(i + 2, n - i - 1));
      UnfilledStep(a, segs, i, n);
      FilledInOrderStep(a, segs, vs, i, n);
      SafeTail(segs);
      SurviveNext(a, segs[0], vs, i);
      PartsOfHead(a, segs[0], i + 1);
      if Occurs(Placeholder(i + 1), a) {
        if AllLead(vs) {
          var c := vs[i] + Weave(segs[1..], vs[i + 1..] + PlaceholdersFrom(|vs| + 1, n - |vs|));
          InsertedIsOverwritten(a + segs[0], i + 1, b, vs[i], c);
          Assoc(a + segs[0], vs[i], Weave(segs[1..], vs[i + 1..] + PlaceholdersFrom(|vs| + 1, n - |vs|)));
          ChangedForGood(FilledInOrder(a, segs, vs, i, n), sql, vs, i + 1, |vs|);
        }
      } else {
        FirstDollarIsPlaceholder(a + segs[0], i + 1, b, vs[i]);
        InOrderIsFilled(a + segs[0] + vs[i], segs[1..], vs, i + 1, n, sql);
      }
    }
  }

  lemma PartsOfHead(a: string, seg: string, k: nat)
    requires DollarFree(seg) && (a == "" || (seg != "" && !StartsDigit(seg)))
    ensures Occurs(Placeholder(k), a + seg) <==> Occurs(Placeholder(k), a)
  {
    OccursInParts(a, seg, "", k);
    assert a + seg + "" == a + seg;
    FindsFirst("", Placeholder(k), 0);
  }

  // ---- whatever was overwritten ---------------------------------------------------------------

  /** A replacement always happens at or before the placeholder's own place. */
  lemma ReplacedBefore(z: string, k: nat, b: string, val: string) returns (z': string)
    ensures ReplaceFirst(z + Placeholder(k) + b, Placeholder(k), val) == z' + b && |z'| == |z| + |val|
  {
    var pat := Placeholder(k);
    if Occurs(pat, z) {
      var q := FoundEarly(z, k, b);
      z' := z[..q] + val + z[q + |pat|..] + pat;
      ReplacedWithin(z, pat, b, q, |pat|, val);
    } else {
      FirstDollarIsPlaceholder(z, k, b, val);
      z' := z + val;
    }
  }

  lemma ReplacedWithin(z: string, pat: string, b: string, q: nat, len: nat, val: string)
    requires q + len <= |z|
    ensures Replace(z + pat + b, q, len, val) == z[..q] + val + z[q + len..] + pat + b
  {
    var s := z + pat + b;
    assert s[..q] == z[..q] && s[q + len..] == z[q + len..] + pat + b;
  }

  lemma SameLength(a: string, b: string, c: string)
    requires |a| == |b|
    ensures |a + c| == |b + c|
  {
  }

  /** The length of the result, and what is left at its end, do not depend on the texts' contents. */
  lemma {:induction false} InOrderLength(y: string, segs: seq<string>, vs: seq<string>, i: nat, n: nat, sql: string)
    returns (y': string)
    requires i <= |vs| <= n && |segs| == n - i + 1
    requires Filled(sql, vs, i) == y + Weave(segs, PlaceholdersFrom(i + 1, n - i))
    ensures Filled(sql, vs, |vs|) == y' + Weave(segs[|vs| - i..], PlaceholdersFrom(|vs| + 1, n - |vs|))
    ensures |Filled(sql, vs, |vs|)| == |FilledInOrder(y, segs, vs, i, n)|
    decreases |vs| - i
  {
    if i == |vs| {
      y' := y;
      assert segs[0..] == segs;
      assert vs[i..] + PlaceholdersFrom(|vs| + 1, n - |vs|) == PlaceholdersFrom(i + 1, n - i);
    } else {
      var b := Weave(segs[1..], PlaceholdersFrom(i + 2, n - i - 1));
      UnfilledStep(y, segs, i, n);
      var z := ReplacedBefore(y + segs[0], i + 1, b, vs[i]);
      y' := InOrderLength(z, segs[1..], vs, i + 1, n, sql);
      assert segs[1..][|vs| - (i + 1)..] == segs[|vs| - i..];
      FilledInOrderStep(y, segs, vs, i, n);
      SameLength(z, y + segs[0] + vs[i], Weave(segs[1..], vs[i + 1..] + PlaceholdersFrom(|vs| + 1, n - |vs|)));
    }
  }

  // ---- whole templates ------------------------------------------------------------------------

  lemma SurvivingFromStart(vs: seq<string>)
    ensures AllSurvive("", vs, 0) <==> Surviving(vs)
  {
    forall j | 0 < j <= |vs| ensures !Occurs(Placeholder(j), "") {
      FindsFirst("", Placeholder(j), 0);
    }
  }

  function Template(segs: seq<string>, n: nat): string
    requires |segs| == n + 1
  {
    Weave(segs, PlaceholdersFrom(1, n))
  }

  /** The template with its texts in order; placeholders no text was left for stay. */
  function Whole(segs: seq<string>, vs: seq<string>, n: nat): string
    requires |vs| <= n && |segs| == n + 1
  {
    Weave(segs, vs + PlaceholdersFrom(|vs| + 1, n - |vs|))
  }

  lemma FromStart(segs: seq<string>, vs: seq<string>, n: nat)
    requires |vs| <= n && |segs| == n + 1
    ensures Filled(Template(segs, n), vs, 0) == "" + Weave(segs, PlaceholdersFrom(0 + 1, n - 0))
    ensures FilledInOrder("", segs, vs, 0, n) == Whole(segs, vs, n)
  {
    assert vs[0..] == vs;
    assert "" + Template(segs, n) == Template(segs, n) && "" + Whole(segs, vs, n) == Whole(segs, vs, n);
  }

  lemma WholeWhenAll(segs: seq<string>, vs: seq<string>)
    requires |segs| == |vs| + 1 && SafeSegments(segs)
    ensures Whole(segs, vs, |vs|) == Weave(segs, vs) == Subst(Template(segs, |vs|), vs)
  {
    assert vs + PlaceholdersFrom(|vs| + 1, 0) == vs && vs[0..] == vs;
    InOrderIsSimultaneous(segs, vs, 0);
  }

  /** The results for a template of `n` placeholders and at most `n` texts. */
  lemma InOrderTemplate(segs: seq<string>, vs: seq<string>, n: nat)
    requires |vs| <= n && |segs| == n + 1 && SafeSegments(segs)
    ensures Surviving(vs) ==> Filled(Template(segs, n), vs, |vs|) == Whole(segs, vs, n)
    ensures AllLead(vs) ==> (Filled(Template(segs, n), vs, |vs|) == Whole(segs, vs, n) <==> Surviving(vs))
    ensures |Filled(Template(segs, n), vs, |vs|)| == |Whole(segs, vs, n)|
    ensures |vs| == n ==> Whole(segs, vs, n) == Weave(segs, vs) == Subst(Template(segs, n), vs)
  {
    var sql := Template(segs, n);
    InOrderWhole(segs, vs, n, sql);
    if AllLead(vs) && !Surviving(vs) { ChangedDiverges(Whole(segs, vs, n), Filled(sql, vs, |vs|)); }
    if |vs| == n { WholeWhenAll(segs, vs); }
  }

  lemma InOrderWhole(segs: seq<string>, vs: seq<string>, n: nat, sql: string)
    requires |vs| <= n && |segs| == n + 1 && SafeSegments(segs) && sql == Template(segs, n)
    ensures Surviving(vs) ==> Filled(sql, vs, |vs|) == Whole(segs, vs, n)
    ensures !Surviving(vs) && AllLead(vs) ==> Changed(Whole(segs, vs, n), Filled(sql, vs, |vs|))
    ensures |Filled(sql, vs, |vs|)| == |Whole(segs, vs, n)|
  {
    FromStart(segs, vs, n);
    SurvivingFromStart(vs);
    InOrderIsFilled("", segs, vs, 0, n, sql);
    var _ := InOrderLength("", segs, vs, 0, n, sql);
  }

  /** And when texts are missing, the last placeholder is still there. */
  lemma InOrderEnd(segs: seq<string>, vs: seq<string>, n: nat) returns (y: string)
    requires |vs| < n && |segs| == n + 1
    ensures Filled(Template(segs, n), vs, |vs|) == y + Placeholder(n) + segs[n]
  {
    FromStart(segs, vs, n);
    var start := InOrderLength("", segs, vs, 0, n, Template(segs, n));
    var tail := segs[|vs| - 0..];
    var rest := WeaveEnd(tail, |vs| + 1, n - |vs|);
    assert tail[n - |vs|] == segs[n];
    y := start + rest;
    Assoc4(start, rest, Placeholder(n), segs[n]);
  }
}
