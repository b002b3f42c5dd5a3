/**
 Quoted string literals among the passes: where placeholders can occur in them, and how the literal
 that `insert` writes stands to the text that `insertPS` ends up with.
 */
module QuotedTexts {
  import opened Text
  import opened SqlLiterals
  import opened Placeholders
  import opened Rescanning

  // ---- placeholders in quoted texts -----------------------------------------------------------

  lemma {:induction false} DigitsBehindDoubling(t: string, n: nat)
    requires n <= |Doubled(t)| && forall i :: 0 <= i < n ==> IsDigit(Doubled(t)[i])
    ensures n <= |t| && t[..n] == Doubled(t)[..n]
  {
    if 0 < n {
      assert t != "";
      var head, rest := if t[0] == '\'' then "''" else [t[0]], Doubled(t[1..]);
      assert Doubled(t) == head + rest && Doubled(t)[0] == head[0];
      assert rest == Doubled(t)[1..];
      assert forall i :: 0 <= i < n - 1 ==> rest[i] == Doubled(t)[i + 1];
      DigitsBehindDoubling(t[1..], n - 1);
      assert t[..n] == [t[0]] + t[1..][..n - 1] && Doubled(t)[..n] == [t[0]] + rest[..n - 1];
    }
  }

  lemma MatchBehindHead(head: string, rest: string, pat: string, q: nat)
    requires MatchAt(head + rest, pat, q) && |head| <= q
    ensures MatchAt(rest, pat, q - |head|)
  {
    var p := q - |head|;
    assert rest[p..p + |pat|] == (head + rest)[q..q + |pat|];
  }

  lemma MatchAtDollar(t: string, k: nat)
    requires t != "" && t[0] == '$' && MatchAt(Doubled(t), Placeholder(k), 0)
    ensures Occurs(Placeholder(k), t)
  {
    var n, d, rest := |Placeholder(k)| - 1, Doubled(t), Doubled(t[1..]);
    MatchChars(d, k, 0);
    DollarFirst(t, d, rest);
    DigitsBehindDoubling(t[1..], n);
    SamePrefix(t, d, rest, n);
    OccursAt(Placeholder(k), t, 0);
  }

  lemma DollarFirst(t: string, d: string, rest: string)
    requires t != "" && t[0] == '$' && d == Doubled(t) && rest == Doubled(t[1..])
    ensures d == [t[0]] + rest && forall i :: 0 <= i < |rest| ==> rest[i] == d[i + 1]
  {
  }

  lemma SamePrefix(t: string, d: string, rest: string, n: nat)
    requires t != "" && d == [t[0]] + rest && n <= |rest| && n < |t| && t[1..][..n] == rest[..n]
    ensures t[0..0 + (n + 1)] == d[0..0 + (n + 1)]
  {
    assert t[0..n + 1] == [t[0]] + t[1..][..n];
    assert d[0..n + 1] == [t[0]] + rest[..n];
  }

  lemma {:induction false} OccursBeforeDoubling(t: string, k: nat, q: nat)
    requires MatchAt(Doubled(t), Placeholder(k), q)
    ensures Occurs(Placeholder(k), t)
    decreases |t|
  {
    MatchChars(Doubled(t), k, q);
    assert t != "";
    var head := if t[0] == '\'' then "''" else [t[0]];
    assert Doubled(t) == head + Doubled(t[1..]);
    if |head| <= q {
      MatchBehindHead(head, Doubled(t[1..]), Placeholder(k), q);
      OccursBeforeDoubling(t[1..], k, q - |head|);
      OccursBetween(Placeholder(k), [t[0]], t[1..], "");
      assert [t[0]] + t[1..] + "" == t;
    } else {
      assert Doubled(t)[q] == head[q];
      MatchAtDollar(t, k);
    }
  }

  lemma OccursAfterDoubling(t: string, k: nat)
    requires Occurs(Placeholder(k), t)
    ensures Occurs(Placeholder(k), Doubled(t))
  {
    var pat := Placeholder(k);
    var q := FirstOccurrence(pat, t);
    var before, after := t[..q], t[q + |pat|..];
    assert t == before + pat + after;
    PlaceholderChars(k);
    DoubledOfPlain(pat);
    DoubledConcat(before + pat, after);
    DoubledConcat(before, pat);
    assert pat[..] == pat;
    var s := Doubled(before) + pat + Doubled(after);
    assert s[|Doubled(before)|..|Doubled(before)| + |pat|] == pat;
    OccursAt(pat, s, |Doubled(before)|);
  }

  /** Quotes take no part in a match. */
  lemma MatchInsideQuotes(d: string, s: string, k: nat, q: nat)
    requires s == "'" + d + "'" && MatchAt(s, Placeholder(k), q)
    ensures 0 < q && MatchAt(d, Placeholder(k), q - 1)
  {
    var pat := Placeholder(k);
    MatchChars(s, k, q);
    assert s[0] == '\'' && s[|s| - 1] == '\'' && IsDigit(s[q + |pat| - 1]);
    assert q + |pat| <= |s| - 1;
    assert d[q - 1..q - 1 + |pat|] == s[q..q + |pat|];
  }

  lemma OccursBeforeQuoting(t: string, k: nat)
    requires Occurs(Placeholder(k), Quoted(t))
    ensures Occurs(Placeholder(k), t)
  {
    var q := FirstOccurrence(Placeholder(k), Quoted(t));
    MatchInsideQuotes(Doubled(t), Quoted(t), k, q);
    OccursBeforeDoubling(t, k, q - 1);
  }

  /** Quoting neither makes nor breaks placeholders. */
  lemma OccursInQuotedIff(t: string, k: nat)
    ensures Occurs(Placeholder(k), Quoted(t)) <==> Occurs(Placeholder(k), t)
  {
    if Occurs(Placeholder(k), t) {
      OccursAfterDoubling(t, k);
      OccursBetween(Placeholder(k), "'", Doubled(t), "'");
    }
    if Occurs(Placeholder(k), Quoted(t)) { OccursBeforeQuoting(t, k); }
  }

  lemma UndisturbedQuotedIff(t: string, i: nat, n: nat)
    ensures Undisturbed(Quoted(t), i, n) <==> Undisturbed(t, i, n)
  {
    forall j | i < j <= n ensures Occurs(Placeholder(j), Quoted(t)) <==> Occurs(Placeholder(j), t) {
      OccursInQuotedIff(t, j);
    }
  }

  // ---- the two renderings of a string ---------------------------------------------------------

  /** The texts part where the second one goes on with a backslash. */
  predicate ForkAt(x: string, y: string, r: nat) {
    r < |x| && r < |y| && x[..r] == y[..r] && x[r] != '\\' && y[r] == '\\'
  }

  lemma ForkBehind(h: string, x: string, y: string, r: nat)
    requires ForkAt(x, y, r)
    ensures ForkAt(h + x, h + y, |h| + r)
  {
    assert (h + x)[..|h| + r] == h + x[..r] && (h + y)[..|h| + r] == h + y[..r];
  }

  function Backslash(m: nat): (s: string)
    ensures |s| == m && forall c <- s :: c == '\\'
  {
    seq(m, _ => '\\')
  }

  /** Behind a run of backslashes the doubled ones are still to come. */
  lemma {:induction false} ForkInRun(u: string, m: nat) returns (r: nat)
    requires 0 < m
    ensures ForkAt(Doubled(u) + "'", Backslash(m) + Escaped(u) + "'", r)
    decreases |u|
  {
    var x, y := Doubled(u) + "'", Backslash(m) + Escaped(u) + "'";
    assert y[0] == Backslash(m)[0] && Backslash(m)[0] in Backslash(m);
    if u == "" || u[0] != '\\' {
      r := 0;
      assert x[0] != '\\';
    } else {
      var r' := ForkInRun(u[1..], m + 1);
      RunGrows(u, m);
      assert x == "\\" + (Doubled(u[1..]) + "'");
      ForkBehind("\\", Doubled(u[1..]) + "'", Backslash(m + 1) + Escaped(u[1..]) + "'", r');
      r := 1 + r';
    }
  }

  lemma RunGrows(u: string, m: nat)
    requires u != "" && u[0] == '\\'
    ensures Backslash(m) + Escaped(u) + "'" == "\\" + (Backslash(m + 1) + Escaped(u[1..]) + "'")
  {
    assert Escaped(u) == Backslash(2) + Escaped(u[1..]);
    assert "\\" + Backslash(m + 1) == Backslash(m) + Backslash(2);
    MoveOver("\\", Backslash(m + 1), Backslash(m), Backslash(2), Escaped(u[1..]), "'");
  }

  lemma MoveOver(a: string, b: string, c: string, d: string, e: string, z: string)
    requires a + b == c + d
    ensures c + (d + e) + z == a + (b + e + z)
  {
    assert c + (d + e) == c + d + e && a + (b + e + z) == a + b + e + z;
  }

  lemma BackslashFirst(t: string)
    requires t != "" && t[0] == '\\'
    ensures Doubled(t) + "'" == "\\" + (Doubled(t[1..]) + "'")
    ensures Escaped(t) + "'" == "\\" + (Backslash(1) + Escaped(t[1..]) + "'")
  {
    var b, two, d, e := "\\", "\\\\", Doubled(t[1..]), Escaped(t[1..]);
    assert [t[0]] == b && two == b + Backslash(1);
    assert Doubled(t) == b + d && Escaped(t) == two + e;
    Shift(b, Backslash(1), d, e, "'");
  }

  lemma Shift(b: string, m: string, d: string, e: string, q: string)
    ensures b + d + q == b + (d + q) && b + m + e + q == b + (m + e + q)
  {
  }

  lemma OtherFirst(t: string, h: string)
    requires t != "" && t[0] != '\\' && h == if t[0] == '\'' then "''" else [t[0]]
    ensures Doubled(t) + "'" == h + (Doubled(t[1..]) + "'")
    ensures Escaped(t) + "'" == h + (Escaped(t[1..]) + "'")
  {
    var d, e := Doubled(t[1..]), Escaped(t[1..]);
    assert Doubled(t) == h + d && Escaped(t) == h + e;
  }

  lemma InRest(t: string, c: char)
    requires c in t && t[0] != c
    ensures c in t[1..]
  {
    assert t == [t[0]] + t[1..];
  }

  /** The two renderings of a string, up to and including the closing quote, fork at its first backslashes. */
  ghost predicate Forks(t: string, r: nat) {
    ForkAt(Doubled(t) + "'", Escaped(t) + "'", r)
  }

  lemma ForkAtFirst(t: string) returns (r: nat)
    requires t != "" && t[0] == '\\'
    ensures Forks(t, r)
  {
    var r' := ForkInRun(t[1..], 1);
    BackslashFirst(t);
    ForkBehind("\\", Doubled(t[1..]) + "'", Backslash(1) + Escaped(t[1..]) + "'", r');
    r := 1 + r';
  }

  lemma ForkLater(t: string, r': nat) returns (r: nat)
    requires t != "" && t[0] != '\\' && Forks(t[1..], r')
    ensures Forks(t, r)
  {
    var h := if t[0] == '\'' then "''" else [t[0]];
    OtherFirst(t, h);
    ForkBehind(h, Doubled(t[1..]) + "'", Escaped(t[1..]) + "'", r');
    r := |h| + r';
  }

  lemma {:induction false} ForkAtBackslash(t: string) returns (r: nat)
    requires '\\' in t
    ensures Forks(t, r)
    decreases |t|
  {
    if t[0] == '\\' {
      r := ForkAtFirst(t);
    } else {
      InRest(t, '\\');
      var r' := ForkAtBackslash(t[1..]);
      r := ForkLater(t, r');
    }
  }

  lemma ForkDiverges(v: string, y: string, r: nat, x: string)
    requires ForkAt(v, y, r) && (x == v || Changed(v, x))
    ensures Diverge(x, y)
  {
    if x == v {
      assert DivergeAt(x, y, r);
    } else {
      var p: nat :| ChangedAt(v, x, p);
      if p < r {
        assert v[p] == v[..r][p] == y[..r][p] == y[p];
        assert DivergeAt(x, y, p);
      } else if p == r {
        assert DivergeAt(x, y, r);
      } else {
        assert v[r] == v[..p][r] == x[..p][r] == x[r];
        assert DivergeAt(x, y, r);
      }
    }
  }

  /**
   The literal of `insert` against what the passes have made of the stored text: they are equal exactly
   when the string has no backslash and the text is unchanged, and otherwise they differ at some place.
   */
  lemma RenderingsDiverge(t: string, x: string)
    requires x == Quoted(t) || Changed(Quoted(t), x)
    ensures var literal := "'" + Escaped(t) + "'";
            if x == Quoted(t) && '\\' !in t then x == literal else Diverge(x, literal) && x != literal
  {
    var literal := "'" + Escaped(t) + "'";
    if '\\' in t {
      var r := ForkAtBackslash(t);
      ForkBehind("'", Doubled(t) + "'", Escaped(t) + "'", r);
      assert "'" + (Doubled(t) + "'") == Quoted(t) && "'" + (Escaped(t) + "'") == literal;
      ForkDiverges(Quoted(t), literal, 1 + r, x);
    } else {
      EscapersAgreeIff(t);
      if x != Quoted(t) { ChangedDiverges(Quoted(t), x); }
    }
  }
}
