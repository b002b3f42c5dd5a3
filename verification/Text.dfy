/**
 Character strings as the program handles them: numerals, `std::string::find` and `replace`,
 separated lists.
 */
module Text {
  import opened Wrappers

  // ---- numerals ---------------------------------------------------------------------------

  /** The digit a character denotes; letters count in base 16 only. */
  function DigitOf(c: char, base: nat): (r: Option<nat>) {
    if '0' <= c <= '9' then Some((c - '0') as nat)
    else if base == 16 && 'a' <= c <= 'f' then Some((c - 'a') as nat + 10)
    else if base == 16 && 'A' <= c <= 'F' then Some((c - 'A') as nat + 10)
    else None
  }

  predicate IsDigit(c: char) {
    '0' <= c <= '9'
  }

  predicate StartsDigit(s: string) {
    s != "" && IsDigit(s[0])
  }

  predicate IsNumeral(s: string, base: nat) {
    forall i :: 0 <= i < |s| ==> DigitOf(s[i], base).Some?
  }

  function DigitValue(c: char, base: nat): nat {
    match DigitOf(c, base)
    case Some(d) => d
    case None => 0
  }

  function NumeralValue(s: string, base: nat): nat {
    if s == "" then 0 else NumeralValue(s[..|s| - 1], base) * base + DigitValue(s[|s| - 1], base)
  }

  function DigitChar(d: nat): (c: char)
    requires d < 10
    ensures IsDigit(c) && DigitOf(c, 10) == Some(d)
  {
    '0' + d as char
  }

  /** `std::to_string` of a non-negative number. */
  function Decimal(n: nat): (s: string)
    ensures s != "" && IsNumeral(s, 10) && forall c <- s :: IsDigit(c)
  {
    if n < 10 then [DigitChar(n)] else Decimal(n / 10) + [DigitChar(n % 10)]
  }

  /** `std::to_string` of a signed number. */
  function IntText(i: int): string {
    if i < 0 then "-" + Decimal(-i) else Decimal(i)
  }

  lemma {:induction false} DecimalValue(n: nat)
    ensures NumeralValue(Decimal(n), 10) == n
  {
    var s := Decimal(n);
    if n < 10 {
      assert s[..0] == "";
    } else {
      DecimalValue(n / 10);
      assert s[..|s| - 1] == Decimal(n / 10);
    }
  }

  lemma {:induction false} NumeralIsDecimal(s: string)
    requires s != "" && IsNumeral(s, 10) && (s[0] != '0' || |s| == 1)
    ensures Decimal(NumeralValue(s, 10)) == s
    ensures |s| == 1 || 10 <= NumeralValue(s, 10)
    decreases |s|
  {
    if |s| > 1 {
      var before, last := s[..|s| - 1], s[|s| - 1];
      NumeralIsDecimal(before);
      LeadingDigit(before);
      var n := NumeralValue(before, 10);
      assert NumeralValue(s, 10) / 10 == n && DigitChar(NumeralValue(s, 10) % 10) == last;
      assert s == before + [last];
    }
  }

  /** A numeral that does not start with zero is at least its first digit, and positive. */
  lemma {:induction false} LeadingDigit(s: string)
    requires s != "" && IsNumeral(s, 10)
    ensures DigitOf(s[0], 10).value <= NumeralValue(s, 10)
    ensures |s| == 1 ==> NumeralValue(s, 10) == DigitOf(s[0], 10).value
    decreases |s|
  {
    if |s| == 1 {
      assert s[..0] == "";
    } else {
      LeadingDigit(s[..|s| - 1]);
    }
  }

  /** The first character of a positive number's text: never '0', and the number itself below ten. */
  lemma {:induction false} DecimalLead(n: nat)
    requires 0 < n
    ensures 1 <= DigitOf(Decimal(n)[0], 10).value <= n
    ensures n < 10 <==> |Decimal(n)| == 1
    ensures n < 10 ==> DigitOf(Decimal(n)[0], 10).value == n
  {
    if 10 <= n { DecimalLead(n / 10); }
  }

  // ---- find and replace -------------------------------------------------------------------

  predicate MatchAt(s: string, pat: string, i: nat) {
    i + |pat| <= |s| && s[i..i + |pat|] == pat
  }

  /** `s.find(pat, from)`, with None for npos. */
  function Find(s: string, pat: string, from: nat): (r: Option<nat>)
    ensures r.Some? ==> from <= r.value && r.value + |pat| <= |s|
    decreases |s| - from
  {
    if |s| < from then None
    else if MatchAt(s, pat, from) then Some(from)
    else Find(s, pat, from + 1)
  }

  /** The search finds the first match from a position on, or there is none. */
  lemma {:induction false} FindsFirst(s: string, pat: string, from: nat)
    ensures match Find(s, pat, from)
            case Some(i) => from <= i && MatchAt(s, pat, i) && forall j :: from <= j < i ==> !MatchAt(s, pat, j)
            case None => forall j :: from <= j ==> !MatchAt(s, pat, j)
    decreases |s| - from
  {
    if from <= |s| && !MatchAt(s, pat, from) {
      FindsFirst(s, pat, from + 1);
    }
  }

  /** `s.replace(pos, len, val)`. */
  function Replace(s: string, pos: nat, len: nat, val: string): string
    requires pos + len <= |s|
  {
    s[..pos] + val + s[pos + len..]
  }

  // ---- lists ------------------------------------------------------------------------------

  const Comma := ", "

  function Join(items: seq<string>): string {
    if items == [] then "" else if |items| == 1 then items[0] else items[0] + Comma + Join(items[1..])
  }

  /** Appending one item, as the list-writing loops do. */
  lemma {:induction false} JoinSnoc(items: seq<string>, item: string)
    ensures Join(items + [item]) == if items == [] then item else Join(items) + Comma + item
  {
    if |items| == 1 {
      assert (items + [item])[1..] == [item];
    } else if items != [] {
      JoinSnoc(items[1..], item);
      assert (items + [item])[1..] == items[1..] + [item];
    }
  }

  /** Lists one behind the other, with a comma and a space between them. */
  lemma {:induction false} JoinConcat(a: seq<string>, b: seq<string>)
    ensures Join([]) == "" && forall item :: Join([item]) == item
    ensures a != [] && b != [] ==> Join(a + b) == Join(a) + ", " + Join(b)
    decreases |b|
  {
    if a != [] && b != [] {
      var init, last := b[..|b| - 1], b[|b| - 1];
      assert b == init + [last] && a + b == a + init + [last];
      JoinSnoc(a + init, last);
      JoinSnoc(init, last);
      if init == [] {
        assert a + init == a;
      } else {
        JoinConcat(a, init);
        Assoc4(Join(a) + ", ", Join(init), ", ", last);
      }
    }
  }

  predicate DollarFree(s: string) {
    '$' !in s
  }

  lemma DollarFreeTail(s: string)
    requires s != "" && DollarFree(s)
    ensures s[0] != '$' && DollarFree(s[1..])
  {
    assert s[0] in s && forall c <- s[1..] :: c in s;
  }

  predicate AllDollarFree(items: seq<string>) {
    forall s <- items :: DollarFree(s)
  }

  lemma JoinDollarFree(names: seq<string>)
    requires AllDollarFree(names)
    ensures DollarFree(Join(names))
  {
    if names != [] {
      assert names[0] in names;
      if 1 < |names| { JoinDollarFree(names[1..]); }
    }
  }

  lemma IntTextDollarFree(i: int)
    ensures DollarFree(IntText(i))
  {
  }

  // ---- concatenation ----------------------------------------------------------------------

  lemma Assoc(a: string, b: string, c: string)
    ensures a + (b + c) == a + b + c
  {
  }

  lemma Assoc4(a: string, b: string, c: string, d: string)
    ensures a + (b + c + d) == a + b + c + d
  {
  }
}
