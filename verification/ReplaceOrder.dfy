/**
 What the replace-all passes of `SybPreparedStatement` amount to: on an unambiguous template, one
 simultaneous substitution of the rescanned parameter texts.
 */
module ReplaceOrder {
  import opened Wrappers
  import opened Text
  import opened Placeholders
  import opened SybPreparedStatements
  import opened Rescanning
  import opened SqlLiterals

  function LeadOf(t: string): nat
    requires 0 < DigitRun(t)
  {
    DigitOf(t[0], 10).value
  }

  /** A run of several digits must not begin with the digit of a bound parameter ("$12" contains "$1"). */
  predicate RunsOk(t: string, n: nat) {
    t != "" ==>
      && (t[0] == '$' && 2 <= DigitRun(t[1..]) ==> LeadOf(t[1..]) == 0 || n < LeadOf(t[1..]))
      && RunsOk(t[1..], n)
  }

  /**
   A `$` must not directly precede a placeholder other than the last one: the text substituted there
   may start with digits, and a later pass would read them as a parameter number.
   */
  predicate GapsOk(t: string, n: nat) {
    t != "" ==>
      && (t[0] == '$' && 1 < |t| && t[1] == '$' ==> !(1 <= Named(t[2..]) < n))
      && GapsOk(t[1..], n)
  }

  predicate Unambiguous(t: string, n: nat) {
    RunsOk(t, n) && GapsOk(t, n)
  }

  // ---- sufficiency --------------------------------------------------------------------------

  lemma {:induction false} NoParameters(t: string)
    ensures Subst(t, []) == t
  {
    if t != "" {
      NoParameters(t[1..]);
      assert t == [t[0]] + t[1..];
    }
  }

  /** In an unambiguous template a bound placeholder has one digit. */
  lemma BoundIsOneDigit(t: string, n: nat)
    requires t != "" && t[0] == '$' && RunsOk(t, n) && 1 <= Named(t[1..]) <= n
    ensures DigitRun(t[1..]) == 1 && Named(t[1..]) == LeadOf(t[1..]) && Decimal(Named(t[1..])) == [t[1]]
  {
    NamedLead(t[1..]);
    var k := Named(t[1..]);
    DecimalLead(k);
    assert [DigitChar(k)] == [t[1]];
  }

  /** The character behind a `$` that names nothing, after the first `i` parameters were put in. */
  lemma NotTheNumber(t: string, ps: seq<string>, n: nat, i: nat)
    requires t != "" && t[0] == '$' && i == |ps| < n && Unambiguous(t, n)
    requires Named(t[1..]) == 0 || i + 1 < Named(t[1..])
    ensures var s := Subst(t[1..], ps); s == "" || s[0] != Decimal(i + 1)[0]
  {
    DecimalLead(i + 1);
    var u := t[1..];
    if 0 < DigitRun(u) {
      NamedLead(u);
      assert Subst(u, ps)[0] == u[0];
    } else if u != "" && u[0] == '$' {
      assert u[1..] == t[2..];
      assert Subst(u, ps)[0] == '$';
    }
  }

  lemma OkSuffix(t: string, n: nat, k: nat)
    requires Unambiguous(t, n) && k <= |t|
    ensures Unambiguous(t[k..], n)
    decreases k
  {
    if k == 0 {
      assert t[0..] == t;
    } else {
      OkSuffix(t[1..], n, k - 1);
      assert t[1..][k - 1..] == t[k..];
    }
  }

  /** A one-digit placeholder at the front: substituted when bound, copied when not bound yet. */
  lemma SubstAtPlaceholder(t: string, n: nat, ps: seq<string>)
    requires t != "" && t[0] == '$' && RunsOk(t, n) && 1 <= Named(t[1..]) <= n && |ps| <= n
    ensures 2 <= |t|
    ensures var m := Named(t[1..]);
            Subst(t, ps) == (if m <= |ps| then ps[m - 1] else Placeholder(m)) + Subst(t[2..], ps)
  {
    BoundIsOneDigit(t, n);
    var m := Named(t[1..]);
    if |ps| < m {
      CopiedPlaceholder(t, m, t[2..], ps);
    }
  }

  lemma CopiedPlaceholder(t: string, m: nat, rest: string, ps: seq<string>)
    requires 2 <= |t| && t[0] == '$' && t[1] != '$' && rest == t[2..]
    requires Named(t[1..]) == m && |ps| < m && Decimal(m) == [t[1]]
    ensures Subst(t, ps) == Placeholder(m) + Subst(rest, ps)
  {
    assert t[1..][1..] == rest;
    var s := Subst(rest, ps);
    assert Subst(t[1..], ps) == [t[1]] + s;
    assert "$" + ([t[1]] + s) == "$" + [t[1]] + s;
  }

  lemma PassAtHead(m: nat, rest: string, rest': string, ps: seq<string>, i: nat)
    requires 1 <= m <= i + 1 <= |ps| && AllSealed(ps)
    requires ReplaceAll(rest, Placeholder(i + 1), ps[i]) == rest'
    ensures ReplaceAll((if m <= i then Rescanned(ps, i)[m - 1] else Placeholder(m)) + rest, Placeholder(i + 1), ps[i]) ==
            Rescanned(ps, i + 1)[m - 1] + rest'
  {
    if m <= i {
      SealedRescan(ps[m - 1], ps, m, i);
      PassSplit(Rescanned(ps, i)[m - 1], rest, i + 1, ps[i]);
    } else {
      PassAtPlaceholder(rest, i + 1, ps[i]);
    }
  }

  /** A pass over a template that starts with a placeholder whose turn it is, or has been. */
  lemma PassAtBound(t: string, ps: seq<string>, i: nat, m: nat, before: string, after: string)
    requires i < |ps| && AllSealed(ps) && Unambiguous(t, |ps|)
    requires t != "" && t[0] == '$' && m == Named(t[1..]) && 1 <= m <= i + 1
    requires 2 <= |t| ==> before == Subst(t[2..], Rescanned(ps, i)) && after == Subst(t[2..], Rescanned(ps, i + 1))
    requires ReplaceAll(before, Placeholder(i + 1), ps[i]) == after
    ensures ReplaceAll(Subst(t, Rescanned(ps, i)), Placeholder(i + 1), ps[i]) == Subst(t, Rescanned(ps, i + 1))
  {
    SubstAtPlaceholder(t, |ps|, Rescanned(ps, i));
    SubstAtPlaceholder(t, |ps|, Rescanned(ps, i + 1));
    PassAtHead(m, before, after, ps, i);
  }

  lemma SubstAtChar(t: string, ps: seq<string>)
    requires t != "" && (t[0] != '$' || !(1 <= Named(t[1..]) <= |ps|))
    ensures Subst(t, ps) == [t[0]] + Subst(t[1..], ps)
  {
  }

  lemma {:induction false} PassStep(t: string, ps: seq<string>, i: nat)
    requires i < |ps| && AllSealed(ps) && Unambiguous(t, |ps|)
    ensures ReplaceAll(Subst(t, Rescanned(ps, i)), Placeholder(i + 1), ps[i]) == Subst(t, Rescanned(ps, i + 1))
    decreases |t|
  {
    if t != "" {
      var m, before, after := Named(t[1..]), Rescanned(ps, i), Rescanned(ps, i + 1);
      if t[0] == '$' && 1 <= m <= i + 1 {
        BoundIsOneDigit(t, |ps|);
        OkSuffix(t, |ps|, 2);
        PassStep(t[2..], ps, i);
        PassAtBound(t, ps, i, m, Subst(t[2..], before), Subst(t[2..], after));
      } else {
        PassStep(t[1..], ps, i);
        SubstAtChar(t, before);
        SubstAtChar(t, after);
        if t[0] == '$' {
          NotTheNumber(t, before, |ps|, i);
          PassOverDollar(Subst(t[1..], before), i + 1, ps[i]);
        } else {
          PassOverPlain([t[0]], Subst(t[1..], before), i + 1, ps[i]);
        }
      }
    }
  }

  /** The passes so far substitute those parameters all at once, as later passes have left them. */
  lemma {:induction false} PassesAreSubst(t: string, ps: seq<string>, i: nat)
    requires i <= |ps| && AllSealed(ps) && Unambiguous(t, |ps|)
    ensures Passes(t, ps, i) == Subst(t, Rescanned(ps, i))
    decreases i
  {
    if i == 0 {
      NoParameters(t);
      assert Rescanned(ps, 0) == [];
    } else {
      PassesAreSubst(t, ps, i - 1);
      PassStep(t, ps, i - 1);
    }
  }

  // ---- necessity ----------------------------------------------------------------------------

  function Repeat(p: string, n: nat): (ps: seq<string>)
    ensures |ps| == n && forall q <- ps :: q == p
  {
    seq(n, _ => p)
  }

  lemma {:induction false} PassesOverPlain(a: string, s: string, ps: seq<string>, i: nat)
    requires i <= |ps| && DollarFree(a)
    ensures Passes(a + s, ps, i) == a + Passes(s, ps, i)
    decreases i
  {
    if i > 0 {
      PassesOverPlain(a, s, ps, i - 1);
      PassOverPlain(a, Passes(s, ps, i - 1), i, ps[i - 1]);
    }
  }

  /** `$` and a digit that starts no bound parameter's number survive every pass. */
  lemma {:induction false} PassesOverUnbound(c: char, s: string, ps: seq<string>, i: nat)
    requires i <= |ps| && IsDigit(c) && (c == '0' || |ps| < DigitOf(c, 10).value)
    ensures Passes("$" + ([c] + s), ps, i) == "$" + Passes([c] + s, ps, i)
    decreases i
  {
    if i > 0 {
      PassesOverUnbound(c, s, ps, i - 1);
      PassesOverPlain([c], s, ps, i - 1);
      DecimalLead(i);
      PassOverDollar(Passes([c] + s, ps, i - 1), i, ps[i - 1]);
    }
  }

  /** A pass over `$` and a digit that names a later parameter. */
  lemma PassBeforeBound(c: char, f: nat, rest: string, ps: seq<string>, i: nat)
    requires 1 <= i < f <= |ps| && IsDigit(c) && DigitOf(c, 10) == Some(f)
    ensures ReplaceAll("$" + [c] + rest, Placeholder(i), ps[i - 1]) ==
            "$" + [c] + ReplaceAll(rest, Placeholder(i), ps[i - 1])
  {
    DecimalLead(i);
    Assoc("$", [c], rest);
    PassOverDollar([c] + rest, i, ps[i - 1]);
    PassOverPlain([c], rest, i, ps[i - 1]);
    Assoc("$", [c], ReplaceAll(rest, Placeholder(i), ps[i - 1]));
  }

  lemma PassTakesBound(c: char, f: nat, rest: string, ps: seq<string>)
    requires 1 <= f <= |ps| && IsDigit(c) && DigitOf(c, 10) == Some(f)
    ensures ReplaceAll("$" + [c] + rest, Placeholder(f), ps[f - 1]) ==
            ps[f - 1] + ReplaceAll(rest, Placeholder(f), ps[f - 1])
  {
    assert [DigitChar(f)] == [c];
    assert Placeholder(f) == "$" + [c];
    PassAtPlaceholder(rest, f, ps[f - 1]);
  }

  /** What the passes have made of `$` and a digit that names parameter `f`. */
  function AtBound(c: char, f: nat, ps: seq<string>, i: nat): string
    requires 1 <= f <= |ps| && i <= |ps|
  {
    if i < f then "$" + [c] else Rescan(ps[f - 1], ps, f, i)
  }

  /** `$` and a digit `f` that names a parameter: pass `f` takes it, whatever digits follow. */
  lemma {:induction false} PassesOverBound(c: char, f: nat, s: string, ps: seq<string>, i: nat)
    requires i <= |ps| && IsDigit(c) && DigitOf(c, 10) == Some(f) && 1 <= f <= |ps| && Sealed(ps[f - 1])
    ensures Passes("$" + [c] + s, ps, i) == AtBound(c, f, ps, i) + Passes(s, ps, i)
    decreases i
  {
    if i > 0 {
      PassesOverBound(c, f, s, ps, i - 1);
      var rest := Passes(s, ps, i - 1);
      if i < f {
        PassBeforeBound(c, f, rest, ps, i);
      } else if i == f {
        PassTakesBound(c, f, rest, ps);
      } else {
        SealedRescan(ps[f - 1], ps, f, i - 1);
        PassSplit(Rescan(ps[f - 1], ps, f, i - 1), rest, i, ps[i - 1]);
      }
    }
  }

  lemma AtBoundPlain(c: char, f: nat, ps: seq<string>, i: nat)
    requires 1 <= f <= |ps| && i <= |ps| && DollarFree(ps[f - 1])
    ensures AtBound(c, f, ps, i) == if i < f then "$" + [c] else ps[f - 1]
  {
    if f <= i { RescanOfPlain(ps[f - 1], ps, f, i); }
  }

  lemma PassStart(s: string, k: nat, val: string)
    requires val != ""
    ensures var r := ReplaceAll(s, Placeholder(k), val);
            if s == "" then r == "" else r != "" && (r[0] == s[0] || (s[0] == '$' && r[0] == val[0]))
  {
  }

  lemma {:induction false} PassesKeepNonDigit(s: string, ps: seq<string>, i: nat)
    requires i <= |ps| && !StartsDigit(s) && forall p <- ps :: p != "" && !IsDigit(p[0])
    ensures !StartsDigit(Passes(s, ps, i))
    decreases i
  {
    if i > 0 {
      PassesKeepNonDigit(s, ps, i - 1);
      assert ps[i - 1] in ps;
      PassStart(Passes(s, ps, i - 1), i, ps[i - 1]);
    }
  }

  lemma {:induction false} PassesOverLoneDollar(s: string, ps: seq<string>, i: nat)
    requires i <= |ps| && !StartsDigit(s) && forall p <- ps :: p != "" && !IsDigit(p[0])
    ensures Passes("$" + s, ps, i) == "$" + Passes(s, ps, i)
    decreases i
  {
    if i > 0 {
      PassesOverLoneDollar(s, ps, i - 1);
      PassesKeepNonDigit(s, ps, i - 1);
      PassOverDollar(Passes(s, ps, i - 1), i, ps[i - 1]);
    }
  }

  lemma SubstKeepsNonDigit(s: string, ps: seq<string>)
    requires !StartsDigit(s) && forall p <- ps :: p != "" && !IsDigit(p[0])
    ensures !StartsDigit(Subst(s, ps))
  {
    if s != "" && s[0] == '$' && 1 <= Named(s[1..]) <= |ps| {
      assert ps[Named(s[1..]) - 1] in ps;
    }
  }

  lemma DifferBehind(a: string, x: string, y: string)
    requires x != y
    ensures a + x != a + y
  {
    assert (a + x)[|a|..] == x && (a + y)[|a|..] == y;
  }

  /** With every text "x", a digit run that starts with a bound digit comes out wrong. */
  lemma {:induction false} BadRunShows(t: string, n: nat)
    requires !RunsOk(t, n)
    ensures Passes(t, Repeat("x", n), n) != Subst(t, Repeat("x", n))
    decreases |t|
  {
    var ps, u := Repeat("x", n), t[1..];
    assert AllDollarFree(ps);
    assert t == [t[0]] + u;
    if t[0] == '$' && StartsDigit(u) && 1 <= LeadOf(u) <= n {
      assert t == "$" + [u[0]] + t[2..];
      PassesOverBound(u[0], LeadOf(u), t[2..], ps, n);
      AtBoundPlain(u[0], LeadOf(u), ps, n);
      assert ps[LeadOf(u) - 1] == "x";
      if !RunsOk(t[2..], n) { BadRunShows(t[2..], n); }
      BadRunAtFront(t, n, Passes(t[2..], ps, n));
    } else {
      if t[0] != '$' {
        PassesOverPlain([t[0]], u, ps, n);
      } else if StartsDigit(u) {
        NamedLead(u);
        assert [u[0]] + u[1..] == u;
        PassesOverUnbound(u[0], u[1..], ps, n);
      } else {
        PassesOverLoneDollar(u, ps, n);
      }
      BadRunShows(u, n);
      DifferBehind([t[0]], Passes(u, ps, n), Subst(u, ps));
    }
  }

  lemma BadRunAtFront(t: string, n: nat, rest: string)
    requires !RunsOk(t, n) && 2 <= |t| && t[0] == '$' && StartsDigit(t[1..]) && 1 <= LeadOf(t[1..]) <= n
    requires rest == Passes(t[2..], Repeat("x", n), n)
    requires RunsOk(t[2..], n) || rest != Subst(t[2..], Repeat("x", n))
    ensures "x" + rest != Subst(t, Repeat("x", n))
  {
    var ps, u := Repeat("x", n), t[1..];
    NamedLead(u);
    assert u[1..] == t[2..];
    if DigitRun(u) == 1 {
      assert ps[LeadOf(u) - 1] == "x";
      DifferBehind("x", rest, Subst(t[2..], ps));
    } else {
      DigitsStay(t[2..], u, ps, n);
      LongRunAtFront(t, n, rest);
    }
  }

  lemma DigitsStay(s: string, u: string, ps: seq<string>, n: nat)
    requires n <= |ps| && 2 <= DigitRun(u) && s == u[1..]
    ensures StartsDigit(Passes(s, ps, n))
  {
    assert s == [u[1]] + u[2..];
    PassesOverPlain([u[1]], u[2..], ps, n);
  }

  lemma LongRunAtFront(t: string, n: nat, rest: string)
    requires t != "" && t[0] == '$' && 2 <= DigitRun(t[1..]) && StartsDigit(rest)
    ensures "x" + rest != Subst(t, Repeat("x", n))
  {
    var ps, m, behind := Repeat("x", n), Named(t[1..]), t[1 + DigitRun(t[1..])..];
    if 1 <= m <= n {
      SubstKeepsNonDigit(behind, ps);
      assert ps[m - 1] == "x";
      DifferBehind("x", rest, Subst(behind, ps));
    } else {
      SubstAtChar(t, ps);
      assert ("x" + rest)[0] == 'x' && Subst(t, ps)[0] == '$';
    }
  }

  /** After any pass a leading `$` is still there, before what the rest became, or a text has replaced it. */
  lemma {:induction false} LeadingDollar(s: string, ps: seq<string>, i: nat)
    requires i <= |ps| && AllDollarFree(ps) && forall p <- ps :: p != ""
    ensures var r := Passes("$" + s, ps, i);
            r == "$" + Passes(s, ps, i) || (r != "" && r[0] != '$')
    decreases i
  {
    if i > 0 {
      LeadingDollar(s, ps, i - 1);
      var r, k, val := Passes("$" + s, ps, i - 1), i, ps[i - 1];
      assert val in ps && val[0] in val;
      if r[0] != '$' {
        PassStart(r, k, val);
      } else if Placeholder(k) <= r {
        assert r == Placeholder(k) + r[|Placeholder(k)|..];
        PassAtPlaceholder(r[|Placeholder(k)|..], k, val);
      } else {
        assert r[1..] == Passes(s, ps, i - 1);
      }
    }
  }

  lemma JoinsUp(rest: string, n: nat, val: string)
    ensures ReplaceAll("$" + (Decimal(n) + rest), Placeholder(n), val) ==
            val + ReplaceAll(rest, Placeholder(n), val)
  {
    Assoc("$", Decimal(n), rest);
    PassAtPlaceholder(rest, n, val);
  }

  /** With every text the number `n`, a `$` before the placeholder of an earlier parameter is lost. */
  lemma GapAtFront(t: string, n: nat)
    requires RunsOk(t, n) && 2 <= |t| && t[0] == '$' && t[1] == '$' && 1 <= Named(t[2..]) < n
    ensures var r := Passes(t, Repeat(Decimal(n), n), n); r != "" && r[0] != '$'
  {
    var ps, u := Repeat(Decimal(n), n), t[1..];
    assert t == "$" + u && AllDollarFree(ps);
    LeadingDollar(u, ps, n - 1);
    var r := Passes(t, ps, n - 1);
    if r[0] == '$' {
      assert r == "$" + Passes(u, ps, n - 1);
      NumberAtFront(u, ps, n);
      JoinsUp(Passes(u[2..], ps, n - 1), n, ps[n - 1]);
    } else {
      PassStart(r, n, ps[n - 1]);
    }
  }

  lemma NumberAtFront(u: string, ps: seq<string>, n: nat)
    requires RunsOk(u, n) && 2 <= |u| && u[0] == '$' && 1 <= Named(u[1..]) < n
    requires ps == Repeat(Decimal(n), n)
    ensures Passes(u, ps, n - 1) == Decimal(n) + Passes(u[2..], ps, n - 1)
  {
    BoundIsOneDigit(u, n);
    var c, f := u[1], Named(u[1..]);
    assert u == "$" + [c] + u[2..];
    PassesOverBound(c, f, u[2..], ps, n - 1);
    AtBoundPlain(c, f, ps, n - 1);
  }

  lemma {:induction false} BadGapShows(t: string, n: nat)
    requires RunsOk(t, n) && !GapsOk(t, n)
    ensures Passes(t, Repeat(Decimal(n), n), n) != Subst(t, Repeat(Decimal(n), n))
    decreases |t|
  {
    var ps, u := Repeat(Decimal(n), n), t[1..];
    assert AllDollarFree(ps);
    assert t == [t[0]] + u;
    if t[0] == '$' && 1 <= Named(u) <= n {
      BoundIsOneDigit(t, n);
      SubstAtPlaceholder(t, n, ps);
      assert t == "$" + [u[0]] + t[2..] && u[1..] == t[2..];
      PassesOverBound(u[0], Named(u), t[2..], ps, n);
      AtBoundPlain(u[0], Named(u), ps, n);
      BadGapShows(t[2..], n);
      DifferBehind(ps[Named(u) - 1], Passes(t[2..], ps, n), Subst(t[2..], ps));
    } else {
      if t[0] == '$' && 1 < |t| && t[1] == '$' && 1 <= Named(t[2..]) < n {
        GapAtFront(t, n);
      } else {
        BadGapShows(u, n);
        DifferBehind([t[0]], Passes(u, ps, n), Subst(u, ps));
        if t[0] == '$' {
          LeadingDollar(u, ps, n);
        } else {
          PassesOverPlain([t[0]], u, ps, n);
        }
      }
    }
  }

  /**
   The main result: the passes equal the simultaneous substitution for every list of `n` texts
   without `$`, exactly when the template is unambiguous for `n` parameters.
   */
  lemma {:induction false} PassesAreSimultaneousIff(t: string, n: nat)
    ensures (forall ps :: |ps| == n && AllDollarFree(ps) ==> FinalSQL(t, ps) == Subst(t, ps)) <==> Unambiguous(t, n)
  {
    if Unambiguous(t, n) {
      forall ps | |ps| == n && AllDollarFree(ps) ensures FinalSQL(t, ps) == Subst(t, ps) {
        RescannedPlain(ps, n);
        PassesAreSubst(t, ps, n);
        assert ps[..n] == ps;
      }
    } else if !RunsOk(t, n) {
      BadRunShows(t, n);
      assert AllDollarFree(Repeat("x", n));
      assert FinalSQL(t, Repeat("x", n)) != Subst(t, Repeat("x", n));
    } else {
      BadGapShows(t, n);
      assert AllDollarFree(Repeat(Decimal(n), n));
      assert FinalSQL(t, Repeat(Decimal(n), n)) != Subst(t, Repeat(Decimal(n), n));
    }
  }

  // ---- texts that contain `$` -----------------------------------------------------------------

  /** Some placeholder of the template names parameter `m`. */
  predicate Used(t: string, m: nat) {
    t != "" && ((t[0] == '$' && Named(t[1..]) == m) || Used(t[1..], m))
  }

  lemma {:induction false} UsedBehindDigits(u: string, d: nat, m: nat)
    requires d <= DigitRun(u)
    ensures Used(u, m) <==> Used(u[d..], m)
    decreases d
  {
    if d == 0 {
      assert u[0..] == u;
    } else {
      UsedBehindDigits(u[1..], d - 1, m);
      assert u[1..][d - 1..] == u[d..];
    }
  }

  /** The texts the template uses are the same in both lists. */
  ghost predicate Intact(t: string, ps: seq<string>, qs: seq<string>)
    requires |ps| == |qs|
  {
    forall m :: 1 <= m <= |ps| && Used(t, m) ==> qs[m - 1] == ps[m - 1]
  }

  lemma IntactAtChar(t: string, ps: seq<string>, qs: seq<string>)
    requires |ps| == |qs| && t != "" && (t[0] != '$' || !(1 <= Named(t[1..]) <= |ps|))
    ensures Intact(t, ps, qs) <==> Intact(t[1..], ps, qs)
  {
    forall m | 1 <= m <= |ps| ensures Used(t, m) <==> Used(t[1..], m) {
    }
  }

  lemma IntactAtBound(t: string, ps: seq<string>, qs: seq<string>, rest: string)
    requires |ps| == |qs| && t != "" && t[0] == '$' && 1 <= Named(t[1..]) <= |ps|
    requires rest == t[1 + DigitRun(t[1..])..]
    ensures var m := Named(t[1..]); Intact(t, ps, qs) <==> qs[m - 1] == ps[m - 1] && Intact(rest, ps, qs)
  {
    var d := DigitRun(t[1..]);
    assert t[1..][d..] == rest;
    forall m | 1 <= m <= |ps| ensures Used(t, m) <==> m == Named(t[1..]) || Used(rest, m) {
      UsedBehindDigits(t[1..], d, m);
    }
    assert Used(t, Named(t[1..]));
  }

  /** Overwriting a text that the template uses shows in the substitution. */
  lemma {:induction false} SubstDiverges(t: string, ps: seq<string>, qs: seq<string>)
    requires |ps| == |qs| && forall i :: 0 <= i < |ps| ==> qs[i] == ps[i] || Changed(ps[i], qs[i])
    ensures if Intact(t, ps, qs) then Subst(t, ps) == Subst(t, qs) else Diverge(Subst(t, ps), Subst(t, qs))
    decreases |t|
  {
    if t != "" {
      var m := Named(t[1..]);
      if t[0] == '$' && 1 <= m <= |ps| {
        var rest := t[1 + DigitRun(t[1..])..];
        SubstDiverges(rest, ps, qs);
        IntactAtBound(t, ps, qs, rest);
        if qs[m - 1] == ps[m - 1] {
          if !Intact(t, ps, qs) { PrefixedDiverge(ps[m - 1], Subst(rest, ps), Subst(rest, qs)); }
        } else {
          ChangedDiverges(ps[m - 1], qs[m - 1]);
          HeadsDiverge(ps[m - 1], Subst(rest, ps), qs[m - 1], Subst(rest, qs));
        }
      } else {
        SubstDiverges(t[1..], ps, qs);
        IntactAtChar(t, ps, qs);
        SubstAtChar(t, ps);
        SubstAtChar(t, qs);
        if !Intact(t, ps, qs) { PrefixedDiverge([t[0]], Subst(t[1..], ps), Subst(t[1..], qs)); }
      }
    }
  }

  /** No later pass touches the text of parameter `m`. */
  predicate Survives(ps: seq<string>, m: nat)
    requires 1 <= m <= |ps|
  {
    Undisturbed(ps[m - 1], m, |ps|)
  }

  /**
   For any texts the statement may store, with `$` or without: on an unambiguous template the passes
   are the simultaneous substitution exactly when no text the template uses contains the placeholder
   of a later parameter.
   */
  lemma {:induction false} TextsSurviveIff(t: string, ps: seq<string>)
    requires Unambiguous(t, |ps|) && AllSealed(ps) && AllLead(ps)
    ensures FinalSQL(t, ps) == Subst(t, ps) <==>
            forall m :: 1 <= m <= |ps| && Used(t, m) ==> Survives(ps, m)
  {
    var n := |ps|;
    var qs := Rescanned(ps, n);
    PassesAreSubst(t, ps, n);
    forall i | 0 <= i < n
      ensures qs[i] == ps[i] || Changed(ps[i], qs[i])
      ensures qs[i] == ps[i] <==> Survives(ps, i + 1)
    {
      RescanIff(ps[i], ps, i + 1, n);
      if !Survives(ps, i + 1) { ChangedDiverges(ps[i], qs[i]); }
    }
    assert forall m :: 1 <= m <= n ==> (qs[m - 1] == ps[m - 1] <==> Survives(ps, m));
    SubstDiverges(t, ps, qs);
  }

  /** A template is safe for every list of texts exactly when, besides, it uses no parameter but the last. */
  lemma {:induction false} SafeForEveryTextIff(t: string, n: nat)
    ensures (forall ps :: |ps| == n && AllSealed(ps) && AllLead(ps) ==> FinalSQL(t, ps) == Subst(t, ps)) <==>
            Unambiguous(t, n) && forall m :: 1 <= m < n ==> !Used(t, m)
  {
    if !Unambiguous(t, n) {
      var ps := if RunsOk(t, n) then Repeat(Decimal(n), n) else Repeat("x", n);
      if RunsOk(t, n) { BadGapShows(t, n); } else { BadRunShows(t, n); }
      RepeatIsStored(n);
      assert FinalSQL(t, ps) != Subst(t, ps);
    } else if m :| 1 <= m < n && Used(t, m) {
      var text := Quoted(Placeholder(n));
      var ps := Repeat("x", n)[m - 1 := text];
      RepeatIsStored(n);
      StoredTextsAreSealed(0, Placeholder(n));
      QuotedPlaceholder(n);
      assert |ps| == n && ps[m - 1] == text && !Survives(ps, m);
      TextsSurviveIff(t, ps);
      assert FinalSQL(t, ps) != Subst(t, ps);
    } else {
      forall ps | |ps| == n && AllSealed(ps) && AllLead(ps) ensures FinalSQL(t, ps) == Subst(t, ps) {
        TextsSurviveIff(t, ps);
      }
    }
  }

  lemma RepeatIsStored(n: nat)
    ensures AllSealed(Repeat("x", n)) && AllLead(Repeat("x", n))
    ensures AllSealed(Repeat(Decimal(n), n)) && AllLead(Repeat(Decimal(n), n))
  {
    StoredTextsAreSealed(n, "");
    assert IntText(n) == Decimal(n);
    assert Repeat("x", n) == seq(n, _ => "x") && Repeat(Decimal(n), n) == seq(n, _ => Decimal(n));
  }

  lemma QuotedPlaceholder(n: nat)
    ensures Occurs(Placeholder(n), Quoted(Placeholder(n)))
  {
    PlaceholderChars(n);
    DoubledOfPlain(Placeholder(n));
    var pat, s := Placeholder(n), Quoted(Placeholder(n));
    assert s[1..1 + |pat|] == pat;
    OccursAt(pat, s, 1);
  }

  /** A template that meets `Unambiguous`, and a first text that is mangled nevertheless. */
  lemma InsertedPlaceholderIsReplaced()
    ensures var t, ps := "$1, $2", [Quoted("$2"), "7"];
            && Unambiguous(t, 2) && Quoted("$2") == "'$2'"
            && FinalSQL(t, ps) == "'7', 7" && Subst(t, ps) == "'$2', 7"
  {
    Mangled("$1, $2", "$2", "7");
    TemplateOfTwo("$1, $2");
  }

  lemma {:induction false} OkBehindPlain(a: string, t: string, n: nat)
    requires DollarFree(a) && Unambiguous(t, n)
    ensures Unambiguous(a + t, n)
  {
    if a == "" {
      assert a + t == t;
    } else {
      DollarFreeTail(a);
      OkBehindPlain(a[1..], t, n);
      Uncons(a, t);
    }
  }

  lemma OkAtMarker(c: char, rest: string, n: nat)
    requires IsDigit(c) && !StartsDigit(rest) && Unambiguous(rest, n)
    ensures Unambiguous("$" + ([c] + rest), n)
  {
    var u := [c] + rest;
    var t := "$" + u;
    OkBehindPlain([c], rest, n);
    assert u[1..] == rest && t[1..] == u && DigitRun(u) == 1;
  }

  lemma TemplateOfTwo(t: string)
    requires t == "$1, $2"
    ensures Unambiguous(t, 2)
  {
    var sep, last := ", ", "$" + (['2'] + "");
    assert t == "$" + (['1'] + (sep + last));
    OkAtMarker('2', "", 2);
    OkBehindPlain(sep, last, 2);
    OkAtMarker('1', sep + last, 2);
  }

  lemma Mangled(t: string, text: string, w: string)
    requires t == "$1, $2" && text == "$2" && w == "7"
    ensures Quoted(text) == "'$2'"
    ensures FinalSQL(t, [Quoted(text), w]) == "'7', 7" && Subst(t, [Quoted(text), w]) == "'$2', 7"
  {
    var v, s, r := "'$2'", "'$2', $2", "'7', 7";
    QuotedTwo(text, v);
    FirstPass(t, v, s);
    SecondPass(s, w);
    TwoPasses(t, v, w, s, r);
    SubstOfTwo(t, [v, w]);
    assert v + ", " + w == "'$2', 7";
  }

  lemma QuotedTwo(text: string, v: string)
    requires text == "$2" && v == "'$2'"
    ensures Quoted(text) == v
  {
    DoubledOfPlain(text);
  }

  lemma TwoPasses(t: string, v: string, w: string, s: string, r: string)
    requires ReplaceAll(t, Placeholder(1), v) == s && ReplaceAll(s, Placeholder(2), w) == r
    ensures FinalSQL(t, [v, w]) == r
  {
    var ps := [v, w];
    assert Passes(t, ps, 1) == s;
  }

  lemma FirstPass(t: string, v: string, r: string)
    requires t == "$1, $2" && v == "'$2'" && r == "'$2', $2"
    ensures ReplaceAll(t, Placeholder(1), v) == r
  {
    assert Placeholder(1) == "$1" && t == Placeholder(1) + (", " + ("$" + "2")) && r == v + (", " + "$2");
    PassAtPlaceholder(", " + ("$" + "2"), 1, v);
    PassOverPlain(", ", "$" + "2", 1, v);
    PassOverDollar("2", 1, v);
    PassOfPlain("2", 1, v);
  }

  lemma SecondPass(s: string, w: string)
    requires s == "'$2', $2" && w == "7"
    ensures ReplaceAll(s, Placeholder(2), w) == "'7', 7"
  {
    var a, b, pat := "'", "', ", Placeholder(2);
    assert pat == "$2";
    assert s == a + (pat + (b + (pat + "")));
    PassOverTwo(a, b, 2, w);
    assert a + (w + (b + (w + ""))) == "'7', 7";
  }

  lemma PassOverTwo(a: string, b: string, k: nat, w: string)
    requires DollarFree(a) && DollarFree(b)
    ensures var pat := Placeholder(k);
            ReplaceAll(a + (pat + (b + (pat + ""))), pat, w) == a + (w + (b + (w + "")))
  {
    var pat := Placeholder(k);
    PassOverPlain(a, pat + (b + (pat + "")), k, w);
    PassAtPlaceholder(b + (pat + ""), k, w);
    PassOverPlain(b, pat + "", k, w);
    PassAtPlaceholder("", k, w);
  }

  lemma SubstOfTwo(t: string, ps: seq<string>)
    requires t == "$1, $2" && |ps| == 2
    ensures Subst(t, ps) == ps[0] + ", " + ps[1]
  {
    var u := t[1..];
    assert u == "1, $2" && DigitRun(u) == 1;
    NamedLead(u);
    var rest := t[2..];
    assert rest == ", " + "$2";
    SubstOfPlain(", ", "$2", ps);
    var last := "$2"[1..];
    assert last == "2" && DigitRun(last) == 1;
    NamedLead(last);
    assert "$2"[2..] == "" && Subst("$2", ps) == ps[1] + "";
    assert ps[0] + (", " + ps[1]) == ps[0] + ", " + ps[1];
  }
}
