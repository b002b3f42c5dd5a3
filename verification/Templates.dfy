/**
 Templates whose placeholders come in order: fixed segments with `$1`, `$2`, ... between them, and the
 INSERT statement as such a template.
 */
module Templates {
  import opened Text
  import opened Placeholders

  /** `segs[0]`, text, `segs[1]`, text, ... */
  function Weave(segs: seq<string>, fills: seq<string>): string
    requires |segs| == |fills| + 1
  {
    if fills == [] then segs[0] else segs[0] + fills[0] + Weave(segs[1..], fills[1..])
  }

  function PlaceholdersFrom(k: nat, n: nat): seq<string> {
    seq(n, i requires 0 <= i < n => Placeholder(k + i))
  }

  lemma WeaveSplit(a: string, segs: seq<string>, fills: seq<string>)
    requires |segs| == |fills| + 1 && fills != []
    ensures a + Weave(segs, fills) == a + segs[0] + fills[0] + Weave(segs[1..], fills[1..])
  {
  }

  lemma {:induction false} WeaveEnd(segs: seq<string>, k: nat, n: nat) returns (y: string)
    requires 0 < n && |segs| == n + 1
    ensures Weave(segs, PlaceholdersFrom(k, n)) == y + Placeholder(k + n - 1) + segs[n]
    decreases n
  {
    var ps := PlaceholdersFrom(k, n);
    if n == 1 {
      y := segs[0];
      assert ps[1..] == [] && Weave(segs[1..], ps[1..]) == segs[1];
    } else {
      assert ps[1..] == PlaceholdersFrom(k + 1, n - 1);
      var rest := WeaveEnd(segs[1..], k + 1, n - 1);
      y := segs[0] + ps[0] + rest;
    }
  }

  lemma WeaveStart(segs: seq<string>, fills: seq<string>)
    requires |segs| == |fills| + 1 && !StartsDigit(segs[0])
    requires fills != [] ==> fills[0] != "" && fills[0][0] == '$'
    ensures !StartsDigit(Weave(segs, fills))
  {
  }

  lemma SubstAtWeave(seg: string, k: nat, rest: string, vs: seq<string>)
    requires DollarFree(seg) && 1 <= k <= |vs| && !StartsDigit(rest)
    ensures Subst(seg + Placeholder(k) + rest, vs) == seg + vs[k - 1] + Subst(rest, vs)
  {
    Assoc(seg, Placeholder(k), rest);
    SubstOfPlain(seg, Placeholder(k) + rest, vs);
    SubstAtMarker(k, rest, vs);
    Assoc(seg, vs[k - 1], Subst(rest, vs));
  }

  lemma PlaceholdersNext(segs: seq<string>, k: nat, n: nat)
    requires 0 < n && |segs| == n + 1
    ensures Weave(segs, PlaceholdersFrom(k, n)) ==
            segs[0] + Placeholder(k) + Weave(segs[1..], PlaceholdersFrom(k + 1, n - 1))
  {
    assert PlaceholdersFrom(k, n)[1..] == PlaceholdersFrom(k + 1, n - 1);
  }

  lemma WovenStart(segs: seq<string>, k: nat, n: nat)
    requires |segs| == n + 2 && !StartsDigit(segs[1])
    ensures !StartsDigit(Weave(segs[1..], PlaceholdersFrom(k, n)))
  {
    assert segs[1..][0] == segs[1];
    assert 0 < n ==> PlaceholdersFrom(k, n)[0] == Placeholder(k);
    WeaveStart(segs[1..], PlaceholdersFrom(k, n));
  }

  lemma PlainTail(segs: seq<string>)
    requires AllDollarFree(segs) && segs != []
    ensures AllDollarFree(segs[1..])
  {
    forall s <- segs[1..] ensures DollarFree(s) { assert s in segs; }
  }

  /** And that is the simultaneous substitution, when no text behind a placeholder starts with a digit. */
  lemma {:induction false} InOrderIsSimultaneous(segs: seq<string>, vs: seq<string>, i: nat)
    requires i <= |vs| && |segs| == |vs| - i + 1
    requires AllDollarFree(segs) && forall j :: 1 <= j < |segs| ==> !StartsDigit(segs[j])
    ensures Subst(Weave(segs, PlaceholdersFrom(i + 1, |vs| - i)), vs) == Weave(segs, vs[i..])
    decreases |vs| - i
  {
    assert segs[0] in segs;
    if i == |vs| {
      SubstOfPlain(segs[0], "", vs);
      assert segs[0] + "" == segs[0];
    } else {
      var rest := Weave(segs[1..], PlaceholdersFrom(i + 2, |vs| - i - 1));
      PlaceholdersNext(segs, i + 1, |vs| - i);
      WovenStart(segs, i + 2, |vs| - i - 1);
      SubstAtWeave(segs[0], i + 1, rest, vs);
      PlainTail(segs);
      assert forall j :: 1 <= j < |segs| - 1 ==> segs[1..][j] == segs[j + 1];
      InOrderIsSimultaneous(segs[1..], vs, i + 1);
      assert vs[i..][1..] == vs[i + 1..];
    }
  }

  lemma SubstAtMarker(k: nat, rest: string, vs: seq<string>)
    requires 1 <= k <= |vs| && !StartsDigit(rest)
    ensures Subst(Placeholder(k) + rest, vs) == vs[k - 1] + Subst(rest, vs)
  {
    NamedOfDecimal(k, rest);
    BehindDollar(Decimal(k), rest);
    SubstAtName(Placeholder(k) + rest, rest, |Decimal(k)|, k, vs);
  }

  lemma BehindDollar(d: string, rest: string)
    ensures var t := "$" + d + rest; t[1..] == d + rest && t[1 + |d|..] == rest
  {
  }

  lemma SubstAtName(t: string, rest: string, run: nat, k: nat, vs: seq<string>)
    requires t != "" && t[0] == '$' && 1 + run <= |t| && rest == t[1 + run..] && 1 <= k <= |vs|
    requires DigitRun(t[1..]) == run && Named(t[1..]) == k
    ensures Subst(t, vs) == vs[k - 1] + Subst(rest, vs)
  {
  }

  lemma NamedOfDecimal(k: nat, rest: string)
    requires 1 <= k && !StartsDigit(rest)
    ensures DigitRun(Decimal(k) + rest) == |Decimal(k)| && Named(Decimal(k) + rest) == k
  {
    DigitRunOf(Decimal(k), rest);
    assert (Decimal(k) + rest)[..|Decimal(k)|] == Decimal(k);
    DecimalValue(k);
    DecimalLead(k);
  }

  lemma {:induction false} DigitRunOf(d: string, rest: string)
    requires (forall c <- d :: IsDigit(c)) && (rest == "" || !IsDigit(rest[0]))
    ensures DigitRun(d + rest) == |d|
  {
    if d == "" {
      assert d + rest == rest;
    } else {
      forall c | c in d[1..] ensures IsDigit(c) { assert c in d; }
      DigitRunOf(d[1..], rest);
      assert (d + rest)[1..] == d[1..] + rest && d[0] in d;
    }
  }

  /** No segment can take part in a placeholder, nor let the texts around it do so. */
  predicate SafeSegments(segs: seq<string>) {
    && AllDollarFree(segs)
    && (forall j :: 1 <= j < |segs| ==> !StartsDigit(segs[j]))
    && (forall j :: 1 <= j < |segs| - 1 ==> segs[j] != "")
  }

  lemma SafeTail(segs: seq<string>)
    requires SafeSegments(segs) && 1 < |segs|
    ensures SafeSegments(segs[1..]) && DollarFree(segs[0]) && !StartsDigit(segs[1]) && (2 < |segs| ==> segs[1] != "")
  {
    assert segs[0] in segs;
    forall s <- segs[1..] ensures DollarFree(s) { assert s in segs; }
    var tail := segs[1..];
    assert forall j :: 0 <= j < |tail| ==> tail[j] == segs[j + 1];
  }

  function ListSegments(head: string, tail: string, n: nat): (r: seq<string>)
    ensures |r| == n + 1
    decreases n
  {
    if n == 0 then [head + tail] else if n == 1 then [head, tail] else [head] + ListSegments(Comma, tail, n - 1)
  }

  lemma {:induction false} ListIsWoven(head: string, tail: string, fills: seq<string>)
    ensures Weave(ListSegments(head, tail, |fills|), fills) == head + Join(fills) + tail
    decreases |fills|
  {
    if |fills| == 0 {
      assert head + tail == head + "" + tail;
    } else if |fills| == 1 {
      assert [head, tail][1..] == [tail] && fills[1..] == [];
    } else {
      var segs := ListSegments(head, tail, |fills|);
      assert segs[1..] == ListSegments(Comma, tail, |fills| - 1);
      ListIsWoven(Comma, tail, fills[1..]);
      var rest := Join(fills[1..]);
      RegroupList(head, fills[0], Comma, rest, tail);
    }
  }

  lemma RegroupList(head: string, a: string, b: string, c: string, tail: string)
    ensures head + a + (b + c + tail) == head + (a + b + c) + tail
  {
  }

  lemma {:induction false} ListSegmentsSafe(head: string, tail: string, n: nat)
    requires DollarFree(head) && DollarFree(tail) && !StartsDigit(tail)
    ensures SafeSegments(ListSegments(head, tail, n))
    decreases n
  {
    if 2 <= n {
      ListSegmentsSafe(Comma, tail, n - 1);
      var rest := ListSegments(Comma, tail, n - 1);
      assert rest[0] == Comma;
      assert forall j :: 1 <= j <= n ==> ListSegments(head, tail, n)[j] == rest[j - 1];
    }
  }

  function InsertHead(table: string, names: seq<string>): string {
    "INSERT INTO " + table + " (" + Join(names) + ") VALUES ("
  }

  lemma InsertIsWoven(table: string, names: seq<string>, fills: seq<string>)
    ensures InsertText(table, names, fills) == Weave(ListSegments(InsertHead(table, names), ")", |fills|), fills)
  {
    ListIsWoven(InsertHead(table, names), ")", fills);
  }

  lemma InsertHeadSafe(table: string, names: seq<string>, n: nat)
    requires DollarFree(table) && AllDollarFree(names)
    ensures SafeSegments(ListSegments(InsertHead(table, names), ")", n))
  {
    JoinDollarFree(names);
    ListSegmentsSafe(InsertHead(table, names), ")", n);
  }

  lemma InsertSubst(table: string, names: seq<string>, vs: seq<string>)
    requires DollarFree(table) && AllDollarFree(names)
    ensures Subst(InsertText(table, names, Markers(|vs|)), vs) == InsertText(table, names, vs)
  {
    var segs := ListSegments(InsertHead(table, names), ")", |vs|);
    InsertHeadSafe(table, names, |vs|);
    InsertIsWoven(table, names, Markers(|vs|));
    InsertIsWoven(table, names, vs);
    assert Markers(|vs|) == PlaceholdersFrom(1, |vs|) && vs[0..] == vs;
    InOrderIsSimultaneous(segs, vs, 0);
  }
}
