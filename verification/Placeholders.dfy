/**
 The reference meaning of a template with placeholders: `$` and a maximal run of digits naming a
 bound parameter, all substituted at once.
 */
module Placeholders {
  import opened Text

  /** How many characters at the start of `s` are digits. */
  function DigitRun(s: string): (r: nat)
    ensures r <= |s| && (r < |s| ==> !IsDigit(s[r]))
    ensures forall i :: 0 <= i < r ==> IsDigit(s[i])
  {
    if s == "" || !IsDigit(s[0]) then 0
    else
      var rest := DigitRun(s[1..]);
      assert forall i :: 0 < i < rest + 1 ==> s[i] == s[1..][i - 1];
      rest + 1
  }

  /** The parameter a digit run names: 0 for none, since "$0" and "$01" name nothing. */
  function IndexOf(digits: string): nat
    requires IsNumeral(digits, 10)
  {
    if digits == "" || digits[0] == '0' then 0 else NumeralValue(digits, 10)
  }

  function Named(t: string): nat {
    IndexOf(t[..DigitRun(t)])
  }

  function Placeholder(k: nat): string {
    "$" + Decimal(k)
  }

  function Subst(t: string, ps: seq<string>): string
    decreases |t|
  {
    if t == "" then ""
    else if t[0] == '$' && 1 <= Named(t[1..]) <= |ps| then
      ps[Named(t[1..]) - 1] + Subst(t[1 + DigitRun(t[1..])..], ps)
    else [t[0]] + Subst(t[1..], ps)
  }

  lemma Uncons(a: string, t: string)
    requires a != ""
    ensures (a + t)[0] == a[0] && (a + t)[1..] == a[1..] + t
  {
  }

  lemma SubstOfChar(s: string, rest: string, ps: seq<string>)
    requires s != "" && s[0] != '$' && s[1..] == rest
    ensures Subst(s, ps) == [s[0]] + Subst(rest, ps)
  {
  }

  lemma {:induction false} SubstOfPlain(a: string, t: string, ps: seq<string>)
    requires DollarFree(a)
    ensures Subst(a + t, ps) == a + Subst(t, ps)
  {
    if a == "" {
      assert a + t == t;
    } else {
      DollarFreeTail(a);
      SubstOfPlain(a[1..], t, ps);
      Uncons(a, t);
      SubstOfChar(a + t, a[1..] + t, ps);
      assert [a[0]] + (a[1..] + Subst(t, ps)) == a + Subst(t, ps);
    }
  }

  /** One digit names itself; a longer run that does not start with zero names at least its first digit. */
  lemma NamedLead(t: string)
    requires 0 < DigitRun(t)
    ensures var f := DigitOf(t[0], 10).value;
            if f == 0 then Named(t) == 0 else f <= Named(t)
    ensures DigitRun(t) == 1 ==> Named(t) == DigitOf(t[0], 10).value
  {
    var digits := t[..DigitRun(t)];
    assert digits[0] == t[0] && IsNumeral(digits, 10);
    LeadingDigit(digits);
  }

  // ---- generated statements -----------------------------------------------------------------

  function Markers(n: nat): seq<string> {
    seq(n, i requires 0 <= i < n => Placeholder(i + 1))
  }

  lemma MarkersSnoc(n: nat)
    ensures Markers(n + 1) == Markers(n) + [Placeholder(n + 1)]
  {
  }

  function InsertText(table: string, names: seq<string>, values: seq<string>): string {
    "INSERT INTO " + table + " (" + Join(names) + ") VALUES (" + Join(values) + ")"
  }
}
