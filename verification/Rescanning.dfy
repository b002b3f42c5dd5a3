/**
 What replace-all passes do to text they have inserted. A pass scans the whole text again, so a
 parameter's text that contains the placeholder of a later parameter is rewritten.
 */
module Rescanning {
  import opened Wrappers
  import opened Text
  import opened SqlLiterals
  import opened Placeholders
  import opened SybPreparedStatements

  /** No placeholder can begin in `v` and end in what follows it. */
  predicate Sealed(v: string) {
    DollarFree(v) || (v != "" && v[|v| - 1] != '$' && !IsDigit(v[|v| - 1]))
  }

  predicate AllSealed(vs: seq<string>) {
    forall i :: 0 <= i < |vs| ==> Sealed(vs[i])
  }

  /** The first character is neither the placeholders' nor the escapers' special one. */
  predicate Leads(v: string) {
    v != "" && v[0] != '$' && v[0] != '\\'
  }

  predicate AllLead(vs: seq<string>) {
    forall i :: 0 <= i < |vs| ==> Leads(vs[i])
  }

  /** Every text the statement stores for an integer or a string is of this kind. */
  lemma StoredTextsAreSealed(i: int, s: string)
    ensures Sealed(IntText(i)) && Leads(IntText(i))
    ensures Sealed(Quoted(s)) && Leads(Quoted(s))
  {
    IntTextDollarFree(i);
    assert Quoted(s)[0] == '\'' && Quoted(s)[|Quoted(s)| - 1] == '\'';
  }

  // ---- one pass, from the left ----------------------------------------------------------------

  lemma PlaceholderChars(k: nat)
    ensures var pat := Placeholder(k);
            2 <= |pat| && pat[0] == '$' && forall i :: 0 < i < |pat| ==> IsDigit(pat[i])
  {
    var digits, pat := Decimal(k), Placeholder(k);
    forall i | 0 < i < |pat| ensures IsDigit(pat[i]) {
      assert pat[i] == digits[i - 1] && digits[i - 1] in digits;
    }
  }

  /** A match is a `$` and then digits. */
  lemma MatchChars(s: string, k: nat, q: nat)
    requires MatchAt(s, Placeholder(k), q)
    ensures q + 2 <= q + |Placeholder(k)| <= |s| && s[q] == '$'
    ensures forall p :: q < p < q + |Placeholder(k)| ==> IsDigit(s[p])
  {
    var pat := Placeholder(k);
    PlaceholderChars(k);
    assert forall i :: 0 <= i < |pat| ==> s[q + i] == s[q..q + |pat|][i] == pat[i];
    forall p | q < p < q + |pat| ensures IsDigit(s[p]) {
      assert s[p] == pat[p - q];
    }
  }

  lemma NoStraddle(a: string, b: string, k: nat)
    requires a != "" && (Sealed(a) || !StartsDigit(b)) && Placeholder(k) <= a + b
    ensures Placeholder(k) <= a
  {
    var pat, n := Placeholder(k), |a|;
    PlaceholderChars(k);
    assert forall i :: 0 <= i < |pat| ==> pat[i] == (a + b)[i];
    assert (a + b)[n - 1] == a[n - 1];
    assert n < |a + b| ==> (a + b)[n] == b[0];
    assert |pat| <= n;
    assert pat == (a + b)[..|pat|] == a[..|pat|];
  }

  lemma SplitBehind(a: string, b: string, n: nat)
    requires n <= |a|
    ensures (a + b)[n..] == a[n..] + b
  {
  }

  /** Matches lie on one side of a seam. */
  lemma {:induction false} PassSplit(a: string, b: string, k: nat, val: string)
    requires Sealed(a) || !StartsDigit(b)
    ensures ReplaceAll(a + b, Placeholder(k), val) ==
            ReplaceAll(a, Placeholder(k), val) + ReplaceAll(b, Placeholder(k), val)
    decreases |a|
  {
    var pat := Placeholder(k);
    if a == "" {
      assert a + b == b;
    } else if pat <= a + b {
      NoStraddle(a, b, k);
      SplitBehind(a, b, |pat|);
      SealedTail(a, |pat|);
      PassSplit(a[|pat|..], b, k, val);
      Assoc(val, ReplaceAll(a[|pat|..], pat, val), ReplaceAll(b, pat, val));
    } else {
      NoPrefix(a, b, pat);
      SplitBehind(a, b, 1);
      SealedTail(a, 1);
      PassSplit(a[1..], b, k, val);
      Assoc([a[0]], ReplaceAll(a[1..], pat, val), ReplaceAll(b, pat, val));
    }
  }

  lemma NoPrefix(a: string, b: string, pat: string)
    requires !(pat <= a + b)
    ensures !(pat <= a)
  {
    assert |pat| <= |a| ==> (a + b)[..|pat|] == a[..|pat|];
  }

  lemma SealedTail(a: string, n: nat)
    requires n <= |a|
    ensures Sealed(a) ==> Sealed(a[n..])
  {
    if DollarFree(a) {
      assert forall c <- a[n..] :: c in a;
    }
  }

  lemma {:induction false} PassOfPlain(a: string, k: nat, val: string)
    requires DollarFree(a)
    ensures ReplaceAll(a, Placeholder(k), val) == a
    decreases |a|
  {
    if a != "" {
      assert a[0] in a && Placeholder(k)[0] == '$';
      forall c | c in a[1..] ensures c in a { }
      PassOfPlain(a[1..], k, val);
      assert a == [a[0]] + a[1..];
    }
  }

  lemma PassOverPlain(a: string, s: string, k: nat, val: string)
    requires DollarFree(a)
    ensures ReplaceAll(a + s, Placeholder(k), val) == a + ReplaceAll(s, Placeholder(k), val)
  {
    PassSplit(a, s, k, val);
    PassOfPlain(a, k, val);
  }

  /** The pass leaves a `$` alone when the next character does not start the number. */
  lemma PassOverDollar(s: string, k: nat, val: string)
    requires s == "" || s[0] != Decimal(k)[0]
    ensures ReplaceAll("$" + s, Placeholder(k), val) == "$" + ReplaceAll(s, Placeholder(k), val)
  {
    var t, pat := "$" + s, Placeholder(k);
    assert t[1..] == s;
    assert pat[1] == Decimal(k)[0];
    assert s != "" ==> t[1] == s[0];
    assert !(pat <= t);
  }

  lemma PassAtPlaceholder(s: string, k: nat, val: string)
    ensures ReplaceAll(Placeholder(k) + s, Placeholder(k), val) == val + ReplaceAll(s, Placeholder(k), val)
  {
    var t, pat := Placeholder(k) + s, Placeholder(k);
    assert pat <= t && t[|pat|..] == s;
  }

  lemma SealedPass(a: string, k: nat, val: string)
    requires Sealed(a)
    ensures Sealed(ReplaceAll(a, Placeholder(k), val))
  {
    if DollarFree(a) {
      PassOfPlain(a, k, val);
    } else {
      var init, last := a[..|a| - 1], [a[|a| - 1]];
      assert a == init + last;
      PassSplit(init, last, k, val);
      PassOfPlain(last, k, val);
    }
  }

  // ---- the passes after the one that inserted a text ------------------------------------------

  /** What becomes of `v`, inserted by pass `i`, in the passes up to `k`. */
  function Rescan(v: string, vs: seq<string>, i: nat, k: nat): string
    requires i <= k <= |vs|
    decreases k
  {
    if k == i then v else ReplaceAll(Rescan(v, vs, i, k - 1), Placeholder(k), vs[k - 1])
  }

  lemma {:induction false} SealedRescan(v: string, vs: seq<string>, i: nat, k: nat)
    requires i <= k <= |vs| && Sealed(v)
    ensures Sealed(Rescan(v, vs, i, k))
    decreases k
  {
    if i < k {
      SealedRescan(v, vs, i, k - 1);
      SealedPass(Rescan(v, vs, i, k - 1), k, vs[k - 1]);
    }
  }

  lemma {:induction false} RescanOfPlain(v: string, vs: seq<string>, i: nat, k: nat)
    requires i <= k <= |vs| && DollarFree(v)
    ensures Rescan(v, vs, i, k) == v
    decreases k
  {
    if i < k {
      RescanOfPlain(v, vs, i, k - 1);
      PassOfPlain(v, k, vs[k - 1]);
    }
  }

  predicate Occurs(pat: string, s: string) {
    Find(s, pat, 0).Some?
  }

  /** `x` is `v` up to a `$` of `v` that has been overwritten. */
  predicate ChangedAt(v: string, x: string, p: nat) {
    p < |v| && p < |x| && v[..p] == x[..p] && v[p] == '$' && x[p] != '$' && x[p] != '\\'
  }

  ghost predicate Changed(v: string, x: string) {
    exists p: nat :: ChangedAt(v, x, p)
  }

  lemma OverwrittenAt(v: string, x: string, q: nat, len: nat, val: string, rest: string)
    requires q + len <= |x| && 0 < len && x[q] == '$' && Leads(val)
    requires x == v || exists p: nat :: p != q && ChangedAt(v, x, p)
    ensures Changed(v, x[..q] + val + rest)
  {
    var y := x[..q] + val + rest;
    assert y[q] == val[0] && y[..q] == x[..q];
    if x == v {
      assert ChangedAt(v, y, q);
    } else {
      var p: nat :| p != q && ChangedAt(v, x, p);
      if p < q {
        assert x[..q][..p] == x[..p] && y[..q][..p] == y[..p] && y[p] == x[..q][p] == x[p];
        assert ChangedAt(v, y, p);
      } else {
        assert v[q] == v[..p][q] == x[..p][q] == x[q];
        assert v[..p][..q] == v[..q] && x[..p][..q] == x[..q];
        assert ChangedAt(v, y, q);
      }
    }
  }

  lemma PassAtFirst(x: string, k: nat, val: string, q: nat) returns (rest: string)
    requires Find(x, Placeholder(k), 0) == Some(q)
    ensures q + |Placeholder(k)| <= |x| && x[q] == '$'
    ensures ReplaceAll(x, Placeholder(k), val) == x[..q] + val + rest
  {
    var pat := Placeholder(k);
    FindsFirst(x, pat, 0);
    MatchChars(x, k, q);
    var plain, after := MatchSplits("", x, pat, q) by { assert "" + x == x; }
    SkipToMatch(plain, pat, after, val);
    assert plain == (plain + (pat + after))[..|plain|];
    rest := ReplaceAll(after, pat, val);
  }

  /** A pass either finds nothing or overwrites a `$`. */
  lemma RescanStep(v: string, x: string, k: nat, val: string)
    requires Leads(val) && (x == v || Changed(v, x))
    ensures var y := ReplaceAll(x, Placeholder(k), val);
            if x == v && !Occurs(Placeholder(k), v) then y == v else Changed(v, y)
  {
    var pat := Placeholder(k);
    match Find(x, pat, 0)
    case None =>
      assert "" + x == x;
      NoMatchLeft("", x, pat, val);
    case Some(q) =>
      var rest := PassAtFirst(x, k, val, q);
      OverwrittenAt(v, x, q, |pat|, val, rest);
  }

  /** No placeholder of the parameters behind the `i`-th, up to the `k`-th, occurs in `v`. */
  predicate Undisturbed(v: string, i: nat, k: nat) {
    forall j :: i < j <= k ==> !Occurs(Placeholder(j), v)
  }

  lemma UndisturbedStep(v: string, i: nat, k: nat)
    requires i < k
    ensures Undisturbed(v, i, k) <==> Undisturbed(v, i, k - 1) && !Occurs(Placeholder(k), v)
  {
  }

  /** An inserted text survives exactly when no later placeholder occurs in it. */
  lemma {:induction false} RescanIff(v: string, vs: seq<string>, i: nat, k: nat)
    requires i <= k <= |vs| && AllLead(vs)
    ensures var x := Rescan(v, vs, i, k); if Undisturbed(v, i, k) then x == v else Changed(v, x)
    decreases k
  {
    if i < k {
      RescanIff(v, vs, i, k - 1);
      UndisturbedStep(v, i, k);
      RescanStep(v, Rescan(v, vs, i, k - 1), k, vs[k - 1]);
    }
  }

  predicate DivergeAt(x: string, y: string, p: nat) {
    p < |x| && p < |y| && x[p] != y[p]
  }

  /** The texts differ at some place, whatever follows them. */
  ghost predicate Diverge(x: string, y: string) {
    exists p: nat :: DivergeAt(x, y, p)
  }

  lemma ChangedDiverges(v: string, x: string)
    requires Changed(v, x)
    ensures Diverge(v, x) && Diverge(x, v) && x != v
  {
    var p: nat :| ChangedAt(v, x, p);
    assert DivergeAt(v, x, p) && DivergeAt(x, v, p);
  }

  lemma DivergeBehind(a: string, x: string, u: string, y: string, w: string)
    requires Diverge(x, y)
    ensures Diverge(a + (x + u), a + (y + w))
  {
    var p: nat :| DivergeAt(x, y, p);
    var s, t := a + (x + u), a + (y + w);
    assert s[|a| + p] == (x + u)[p] == x[p] && t[|a| + p] == (y + w)[p] == y[p];
    assert DivergeAt(s, t, |a| + p);
  }

  lemma PrefixedDiverge(a: string, x: string, y: string)
    requires Diverge(x, y)
    ensures Diverge(a + x, a + y)
  {
    DivergeBehind(a, x, "", y, "");
    assert x + "" == x && y + "" == y;
  }

  lemma HeadsDiverge(x: string, u: string, y: string, w: string)
    requires Diverge(x, y)
    ensures Diverge(x + u, y + w)
  {
    DivergeBehind("", x, u, y, w);
    assert "" + (x + u) == x + u && "" + (y + w) == y + w;
  }

  lemma OccursAt(pat: string, s: string, i: nat)
    requires MatchAt(s, pat, i)
    ensures Occurs(pat, s)
  {
    FindsFirst(s, pat, 0);
  }

  lemma FirstOccurrence(pat: string, s: string) returns (q: nat)
    requires Occurs(pat, s)
    ensures Find(s, pat, 0) == Some(q) && MatchAt(s, pat, q) && forall j :: 0 <= j < q ==> !MatchAt(s, pat, j)
  {
    FindsFirst(s, pat, 0);
    q := Find(s, pat, 0).value;
  }

  lemma PlainHasNone(s: string, k: nat)
    requires DollarFree(s)
    ensures !Occurs(Placeholder(k), s)
  {
    if Occurs(Placeholder(k), s) {
      var q := FirstOccurrence(Placeholder(k), s);
      MatchChars(s, k, q);
      assert false;
    }
  }

  /** No text contains the placeholder of a later one. */
  predicate Surviving(vs: seq<string>) {
    forall m :: 0 <= m < |vs| ==> Undisturbed(vs[m], m + 1, |vs|)
  }

  lemma PlainSurvive(vs: seq<string>)
    requires AllDollarFree(vs)
    ensures Surviving(vs)
  {
    forall m, j | 0 <= m < |vs| && m + 1 < j <= |vs| ensures !Occurs(Placeholder(j), vs[m]) {
      assert vs[m] in vs;
      PlainHasNone(vs[m], j);
    }
  }

  lemma OccursBetween(pat: string, a: string, s: string, b: string)
    requires Occurs(pat, s)
    ensures Occurs(pat, a + s + b)
  {
    var q := FirstOccurrence(pat, s);
    var t, p := a + s + b, |a| + q;
    assert t[p..p + |pat|] == s[q..q + |pat|];
    OccursAt(pat, t, p);
  }

  /** The first `i` texts, as they stand after pass `i`. */
  function Rescanned(vs: seq<string>, i: nat): (r: seq<string>)
    requires i <= |vs|
    ensures |r| == i
  {
    seq(i, m requires 0 <= m < i => Rescan(vs[m], vs, m + 1, i))
  }

  lemma RescannedPlain(vs: seq<string>, i: nat)
    requires i <= |vs| && AllDollarFree(vs)
    ensures Rescanned(vs, i) == vs[..i] && AllSealed(vs)
  {
    forall m | 0 <= m < i ensures Rescan(vs[m], vs, m + 1, i) == vs[m] {
      assert vs[m] in vs;
      RescanOfPlain(vs[m], vs, m + 1, i);
    }
  }
}
