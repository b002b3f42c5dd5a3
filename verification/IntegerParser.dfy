/**
 The integer parser of the command-line engine: the sign and base split, the wrapping accumulation in
 an unsigned type of the target's width, the wrap test, the range test and the checked negation.
 */
module IntegerParser {
  import opened Wrappers
  import opened Text

  datatype Target = Target(bits: nat, signed: bool)

  datatype IntegerDesc = IntegerDesc(negative: bool, base: nat, value: string)

  datatype ParseError = IncorrectArgumentType

  function Pow2(n: nat): (r: nat)
    ensures 0 < r
  {
    if n == 0 then 1 else 2 * Pow2(n - 1)
  }

  function Modulus(t: Target): (m: nat)
    ensures 0 < m
  {
    Pow2(t.bits)
  }

  /** The widths C++ offers start at eight bits. */
  predicate Width(t: Target) {
    8 <= t.bits
  }

  lemma HalfModulus(t: Target)
    requires Width(t)
    ensures Modulus(t) == 2 * (Modulus(t) / 2) && 128 <= Modulus(t) / 2
  {
    Pow2Large(t.bits);
  }

  lemma Pow2Large(n: nat)
    requires 8 <= n
    ensures 256 <= Pow2(n)
  {
    if n == 8 {
      assert Pow2(4) == 16;
      assert Pow2(8) == 2 * (2 * (2 * (2 * Pow2(4))));
    } else {
      Pow2Large(n - 1);
    }
  }

  function SplitInteger(text: string): Option<IntegerDesc> {
    var negative := text != "" && text[0] == '-';
    var rest := if negative then text[1..] else text;
    var hex := "0x" <= rest;
    var value := if hex then rest[2..] else rest;
    if text == "" || value == "" then None
    else Some(IntegerDesc(negative, if hex then 16 else 10, value))
  }

  /** Some prefix, reduced to the width, is less than the prefix before it. */
  ghost predicate WrapCaught(digits: string, base: nat, m: nat)
    requires 0 < m
  {
    exists k :: 0 <= k < |digits| && StepCaught(digits, base, m, k)
  }

  predicate StepCaught(digits: string, base: nat, m: nat, k: nat)
    requires 0 < m && k < |digits|
  {
    NumeralValue(digits[..k + 1], base) % m < NumeralValue(digits[..k], base) % m
  }

  /** What the text denotes, as an unbounded number. */
  function Denoted(desc: IntegerDesc): int {
    if desc.negative then -(NumeralValue(desc.value, desc.base) as int) else NumeralValue(desc.value, desc.base)
  }

  predicate Fits(v: int, t: Target) {
    if t.signed then -(Modulus(t) / 2) <= v < Modulus(t) / 2 else 0 <= v < Modulus(t)
  }

  /** The residue passes the sign's range test; an unsigned target takes no minus sign at all. */
  predicate ResidueOk(u: nat, negative: bool, t: Target) {
    if t.signed then u <= Modulus(t) / 2 - if negative then 0 else 1 else !negative
  }

  /** The parser's answer, in terms of the digits' value alone. */
  ghost function Parsed(text: string, t: Target): Option<int> {
    match SplitInteger(text)
    case None => None
    case Some(desc) =>
      if !IsNumeral(desc.value, desc.base) || WrapCaught(desc.value, desc.base, Modulus(t)) then None
      else
        var u := NumeralValue(desc.value, desc.base) % Modulus(t);
        if !ResidueOk(u, desc.negative, t) then None
        else Some(if desc.negative then -(u as int) else u)
  }

  // ---- the parser -----------------------------------------------------------------------------

  /** A cast to the signed type of the same width. */
  function AsSigned(u: nat, t: Target): int {
    if u < Modulus(t) / 2 then u else u - Modulus(t)
  }

  method CheckedNegate(u: nat, t: Target) returns (value: int)
    requires Width(t) && u <= Modulus(t) / 2
    ensures value == -(u as int)
  {
    var m := Modulus(t);
    HalfModulus(t);
    ResidueUnique(u - 1, m, if u == 0 then -1 else 0, if u == 0 then m - 1 else u - 1);
    value := -AsSigned((u - 1) % m, t) - 1;
  }

  method AccumulateDigits(desc: IntegerDesc, t: Target) returns (r: Result<nat, ParseError>)
    ensures r.Ok? <==> IsNumeral(desc.value, desc.base) && !WrapCaught(desc.value, desc.base, Modulus(t))
    ensures r.Ok? ==> r.value == NumeralValue(desc.value, desc.base) % Modulus(t)
  {
    var digits, base, m := desc.value, desc.base, Modulus(t);
    var result: nat := 0;
    assert 0 % m == 0 by { ResidueUnique(0, m, 0, 0); }
    for i := 0 to |digits|
      invariant result == NumeralValue(digits[..i], base) % m
      invariant forall k :: 0 <= k < i ==> DigitOf(digits[k], base).Some? && !StepCaught(digits, base, m, k)
    {
      var digit := DigitOf(digits[i], base);
      if digit.None? {
        assert !IsNumeral(digits, base);
        return Err(IncorrectArgumentType);
      }
      var next := (result * base + digit.value) % m;
      AccumulateStep(digits, base, i, m, result, next);
      if result > next {
        assert WrapCaught(digits, base, m);
        return Err(IncorrectArgumentType);
      }
      result := next;
    }
    assert digits[..|digits|] == digits;
    return Ok(result);
  }

  lemma NumeralSnoc(digits: string, base: nat, i: nat)
    requires i < |digits|
    ensures NumeralValue(digits[..i + 1], base) == NumeralValue(digits[..i], base) * base + DigitValue(digits[i], base)
  {
    assert digits[..i + 1][..i] == digits[..i];
  }

  lemma AccumulateStep(digits: string, base: nat, i: nat, m: nat, result: nat, next: nat)
    requires i < |digits| && 0 < m && result == NumeralValue(digits[..i], base) % m
    requires next == (result * base + DigitValue(digits[i], base)) % m
    ensures next == NumeralValue(digits[..i + 1], base) % m
    ensures StepCaught(digits, base, m, i) <==> next < result
  {
    NumeralSnoc(digits, base, i);
    ResidueStep(NumeralValue(digits[..i], base), base, DigitValue(digits[i], base), m);
  }

  lemma MulAtLeast(m: int, k: int)
    requires 0 < m
    ensures 1 <= k ==> m <= k * m
    ensures k <= -1 ==> k * m <= -m
  {
    assert k * m == (k - 1) * m + m;
    assert k * m == (k + 1) * m - m;
  }

  lemma ResidueUnique(a: int, m: nat, q: int, r: nat)
    requires r < m && a == q * m + r
    ensures a % m == r && a / m == q
  {
    var q', r' := a / m, a % m;
    assert a == q' * m + r';
    assert (q - q') * m == q * m - q' * m;
    MulAtLeast(m, q - q');
  }

  /** Reducing before a step changes nothing after it. */
  lemma ResidueStep(a: nat, base: nat, d: nat, m: nat)
    requires 0 < m
    ensures (a % m * base + d) % m == (a * base + d) % m
  {
    var q, r := a / m, a % m;
    var b := r * base + d;
    Factored(a, q, r, base, d, m);
    assert b == b / m * m + b % m;
    assert (q * base + b / m) * m == q * base * m + b / m * m;
    ResidueUnique(a * base + d, m, q * base + b / m, b % m);
  }

  lemma Factored(a: nat, q: nat, r: nat, base: nat, d: nat, m: nat)
    requires a == q * m + r
    ensures a * base + d == q * base * m + (r * base + d)
  {
    assert (q * m + r) * base == q * m * base + r * base;
    assert q * m * base == q * base * m;
  }

  method ParseInteger(text: string, t: Target) returns (r: Result<int, ParseError>)
    requires Width(t)
    ensures Parsed(text, t) == if r.Ok? then Some(r.value) else None
  {
    HalfModulus(t);
    var desc := SplitInteger(text);
    if desc.None? {
      return Err(IncorrectArgumentType);
    }
    var sum := AccumulateDigits(desc.value, t);
    if sum.Err? {
      return Err(IncorrectArgumentType);
    }
    var u, negative := sum.value, desc.value.negative;
    if t.signed && u > (if negative then Modulus(t) / 2 else Modulus(t) / 2 - 1) {
      return Err(IncorrectArgumentType);
    }
    if negative {
      if !t.signed {
        return Err(IncorrectArgumentType);
      }
      var value := CheckedNegate(u, t);
      return Ok(value);
    }
    return Ok(u);
  }

  // ---- main results ---------------------------------------------------------------------------

  lemma PrefixIsQuotient(digits: string, base: nat, k: nat)
    requires k <= |digits|
    ensures NumeralValue(digits[..k], base) <= NumeralValue(digits, base) || base == 0
    decreases |digits| - k
  {
    if k == |digits| {
      assert digits[..k] == digits;
    } else {
      PrefixIsQuotient(digits, base, k + 1);
      NumeralSnoc(digits, base, k);
      MulAtLeastOne(NumeralValue(digits[..k], base), base);
    }
  }

  lemma MulAtLeastOne(v: nat, base: nat)
    ensures base == 0 || v <= v * base
  {
    if 0 < base { assert v * base == v * (base - 1) + v; }
  }

  /** Digits whose value is below the modulus never trip the wrap test. */
  lemma NoFalseAlarm(digits: string, base: nat, m: nat)
    requires 0 < m && 0 < base && NumeralValue(digits, base) < m
    ensures !WrapCaught(digits, base, m)
  {
    forall k | 0 <= k < |digits| ensures !StepCaught(digits, base, m, k) {
      PrefixIsQuotient(digits, base, k);
      PrefixIsQuotient(digits, base, k + 1);
      NumeralSnoc(digits, base, k);
      MulAtLeastOne(NumeralValue(digits[..k], base), base);
      ResidueUnique(NumeralValue(digits[..k], base), m, 0, NumeralValue(digits[..k], base));
      ResidueUnique(NumeralValue(digits[..k + 1], base), m, 0, NumeralValue(digits[..k + 1], base));
    }
  }

  /** Every well-formed text whose value fits the target, minimum and -0 included, parses to exactly that value. */
  lemma FittingTextsAreAccepted(text: string, t: Target)
    requires Width(t) && SplitInteger(text).Some?
    requires var desc := SplitInteger(text).value;
             IsNumeral(desc.value, desc.base) && Fits(Denoted(desc), t) && (t.signed || !desc.negative)
    ensures Parsed(text, t) == Some(Denoted(SplitInteger(text).value))
  {
    var desc := SplitInteger(text).value;
    HalfModulus(t);
    var v := NumeralValue(desc.value, desc.base);
    NoFalseAlarm(desc.value, desc.base, Modulus(t));
    ResidueUnique(v, Modulus(t), 0, v);
  }

  lemma QuotientLeft(n: nat, m: nat, negative: bool)
    requires 0 < m
    ensures (if negative then -(n as int) - -((n % m) as int) else n - n % m) % m == 0
  {
    var q := n / m;
    assert n - n % m == q * m;
    assert -(q * m) == (-q) * m;
    ResidueUnique(q * m, m, q, 0);
    ResidueUnique((-q) * m, m, -q, 0);
  }

  /**
   An accepted text always parses to its value modulo the width, and to its very value exactly when
   that value fits.
   */
  lemma {:induction false} AcceptedIsExactIff(text: string, t: Target)
    requires Width(t) && Parsed(text, t).Some?
    ensures var desc, v := SplitInteger(text).value, Parsed(text, t).value;
            && Fits(v, t) && (Denoted(desc) - v) % Modulus(t) == 0
            && (v == Denoted(desc) <==> Fits(Denoted(desc), t))
  {
    var desc, v, m := SplitInteger(text).value, Parsed(text, t).value, Modulus(t);
    var n := NumeralValue(desc.value, desc.base);
    HalfModulus(t);
    QuotientLeft(n, m, desc.negative);
    if Fits(Denoted(desc), t) { FittingTextsAreAccepted(text, t); }
  }

  /**
   The wrap test is incomplete. When only the last digit overflows, it notices exactly if the residue
   is below the value before that digit.
   */
  lemma {:induction false} LastDigitOverflowCaughtIff(digits: string, base: nat, m: nat)
    requires 0 < m && 0 < base && digits != "" && IsNumeral(digits, base)
    requires NumeralValue(digits[..|digits| - 1], base) < m <= NumeralValue(digits, base)
    ensures WrapCaught(digits, base, m) <==>
            NumeralValue(digits, base) % m < NumeralValue(digits[..|digits| - 1], base)
  {
    var n := |digits| - 1;
    var before := digits[..n];
    NoFalseAlarm(before, base, m);
    ResidueUnique(NumeralValue(before, base), m, 0, NumeralValue(before, base));
    assert digits[..n + 1] == digits;
    forall k | 0 <= k < n ensures !StepCaught(digits, base, m, k) {
      assert before[..k] == digits[..k] && before[..k + 1] == digits[..k + 1];
      assert !StepCaught(before, base, m, k);
    }
    if NumeralValue(digits, base) % m < NumeralValue(before, base) {
      assert StepCaught(digits, base, m, n);
    }
  }

  /** Decimal texts a little beyond the width, up to about a ninth of it, are always rejected. */
  lemma JustBeyondIsRejected(digits: string, t: Target)
    requires Width(t) && digits != "" && IsNumeral(digits, 10)
    requires var v := NumeralValue(digits, 10); Modulus(t) <= v && 10 * (v - Modulus(t) + 1) <= v
    ensures WrapCaught(digits, 10, Modulus(t))
  {
    var m, v, n := Modulus(t), NumeralValue(digits, 10), |digits| - 1;
    var before, d := NumeralValue(digits[..n], 10), DigitValue(digits[n], 10);
    assert v == before * 10 + d && d < 10;
    ResidueUnique(v, m, 1, v - m);
    LastDigitOverflowCaughtIff(digits, 10, m);
  }

  /** An accepted overflow: as a 16-bit unsigned number, "90000" parses to 24464. */
  lemma OverflowCanSlipThrough()
    ensures Parsed("90000", Target(16, false)) == Some(24464)
  {
    var digits, m := "90000", 65536;
    assert Pow2(8) == 256;
    assert Pow2(16) == m;
    ValueOf90000(digits);
    ResidueUnique(90000, m, 1, 24464);
    LastDigitOverflowCaughtIff(digits, 10, m);
  }

  lemma ValueOf90000(s: string)
    requires s == "90000"
    ensures IsNumeral(s, 10) && NumeralValue(s, 10) == 90000 && NumeralValue(s[..4], 10) == 9000
  {
    assert s[..5] == s && s[..0] == "";
    NumeralSnoc(s, 10, 0);
    NumeralSnoc(s, 10, 1);
    NumeralSnoc(s, 10, 2);
    NumeralSnoc(s, 10, 3);
    NumeralSnoc(s, 10, 4);
  }

  /** Printing and parsing round trip: the text of every number of the target type parses back to it. */
  lemma {:induction false} PrintedNumbersParse(v: int, t: Target)
    requires Width(t) && Fits(v, t)
    ensures Parsed(IntText(v), t) == Some(v)
  {
    var digits := Decimal(if v < 0 then -v else v);
    DecimalValue(if v < 0 then -v else v);
    SplitDigits(digits, v < 0);
    FittingTextsAreAccepted(IntText(v), t);
  }

  lemma NotHexNotSigned(digits: string)
    requires digits != "" && forall c <- digits :: IsDigit(c)
    ensures !("0x" <= digits) && digits[0] != '-'
  {
    assert digits[0] in digits;
    if 2 <= |digits| { assert digits[1] in digits; }
    assert "0x"[1] == 'x';
  }

  lemma SplitDigits(digits: string, negative: bool)
    requires digits != "" && forall c <- digits :: IsDigit(c)
    ensures SplitInteger((if negative then "-" else "") + digits) == Some(IntegerDesc(negative, 10, digits))
  {
    NotHexNotSigned(digits);
    assert "" + digits == digits && ("-" + digits)[1..] == digits;
  }

  // ---- the grammar, digit by digit --------------------------------------------------------------

  const Digits := "0123456789abcdef"
  const UpperDigits := "0123456789ABCDEF"

  /** The character is the digit `d` of a base, in either case. */
  predicate Denotes(c: char, d: nat, base: nat) {
    d < base <= 16 && (c == Digits[d] || c == UpperDigits[d])
  }

  predicate Spells(body: string, ds: seq<nat>, base: nat) {
    |body| == |ds| && forall i :: 0 <= i < |ds| ==> Denotes(body[i], ds[i], base)
  }

  /** The number with these digits. */
  function NumberOf(ds: seq<nat>, base: nat): nat {
    if ds == [] then 0 else NumberOf(ds[..|ds| - 1], base) * base + ds[|ds| - 1]
  }

  function Base(hex: bool): nat {
    if hex then 16 else 10
  }

  /** A sign, a base and digits. */
  function Spelled(negative: bool, hex: bool, body: string): string {
    (if negative then "-" else "") + ((if hex then "0x" else "") + body)
  }

  function Signed(negative: bool, n: nat): int {
    if negative then -(n as int) else n
  }

  lemma DigitTable(d: nat)
    requires d < 16
    ensures Digits[d] == if d < 10 then '0' + d as char else 'a' + (d - 10) as char
    ensures UpperDigits[d] == if d < 10 then '0' + d as char else 'A' + (d - 10) as char
  {
    assert d == 0 || d == 1 || d == 2 || d == 3 || d == 4 || d == 5 || d == 6 || d == 7 ||
           d == 8 || d == 9 || d == 10 || d == 11 || d == 12 || d == 13 || d == 14 || d == 15;
  }

  lemma DenotesIff(c: char, d: nat, hex: bool)
    ensures Denotes(c, d, Base(hex)) <==> DigitOf(c, Base(hex)) == Some(d)
  {
    if d < 16 { DigitTable(d); }
  }

  lemma {:induction false} SpelledValue(body: string, ds: seq<nat>, hex: bool)
    requires Spells(body, ds, Base(hex))
    ensures IsNumeral(body, Base(hex)) && NumeralValue(body, Base(hex)) == NumberOf(ds, Base(hex))
    ensures body != "" ==> body[0] != '-' && !("0x" <= body)
  {
    forall i | 0 <= i < |ds| ensures DigitOf(body[i], Base(hex)) == Some(ds[i]) {
      DenotesIff(body[i], ds[i], hex);
    }
    if 1 < |body| { assert DigitOf(body[1], Base(hex)).Some? && "0x"[1] == 'x'; }
    if ds != [] {
      SpelledValue(body[..|ds| - 1], ds[..|ds| - 1], hex);
    }
  }

  lemma PrefixedBody(hex: bool, body: string, rest: string)
    requires body != "" && body[0] != '-' && !("0x" <= body) && rest == (if hex then "0x" else "") + body
    ensures rest != "" && rest[0] != '-' && ("0x" <= rest <==> hex) && (if hex then rest[2..] else rest) == body
  {
  }

  lemma SignedRest(negative: bool, rest: string, text: string)
    requires rest != "" && rest[0] != '-' && text == (if negative then "-" else "") + rest
    ensures text != "" && (text[0] == '-' <==> negative) && (if negative then text[1..] else text) == rest
  {
  }

  lemma SplitSpelled(negative: bool, hex: bool, body: string)
    requires body != "" && body[0] != '-' && !("0x" <= body)
    ensures SplitInteger(Spelled(negative, hex, body)) == Some(IntegerDesc(negative, Base(hex), body))
  {
    var rest := (if hex then "0x" else "") + body;
    PrefixedBody(hex, body, rest);
    SignedRest(negative, rest, Spelled(negative, hex, body));
    SplitParts(Spelled(negative, hex, body), negative, rest, hex, body);
  }

  lemma SplitParts(text: string, negative: bool, rest: string, hex: bool, body: string)
    requires text != "" && (text[0] == '-' <==> negative) && rest == (if negative then text[1..] else text)
    requires ("0x" <= rest <==> hex) && body == (if hex then rest[2..] else rest) && body != ""
    ensures SplitInteger(text) == Some(IntegerDesc(negative, Base(hex), body))
  {
  }

  lemma {:induction false} SpellingOf(body: string, hex: bool) returns (ds: seq<nat>)
    requires IsNumeral(body, Base(hex))
    ensures Spells(body, ds, Base(hex))
  {
    ds := seq(|body|, i requires 0 <= i < |body| => DigitOf(body[i], Base(hex)).value);
    forall i | 0 <= i < |ds| ensures Denotes(body[i], ds[i], Base(hex)) { DenotesIff(body[i], ds[i], hex); }
  }

  lemma FittingSplit(text: string, desc: IntegerDesc, n: nat, t: Target)
    requires Width(t) && SplitInteger(text) == Some(desc)
    requires IsNumeral(desc.value, desc.base) && NumeralValue(desc.value, desc.base) == n
    requires 0 < desc.base && Fits(Signed(desc.negative, n), t) && (t.signed || !desc.negative)
    ensures Parsed(text, t) == Some(Signed(desc.negative, n))
  {
    FittingTextsAreAccepted(text, t);
  }

  lemma AcceptedSplit(text: string, desc: IntegerDesc, n: int, t: Target, v: int)
    requires Width(t) && SplitInteger(text) == Some(desc) && Parsed(text, t) == Some(v)
    requires n == Signed(desc.negative, NumeralValue(desc.value, desc.base))
    ensures Fits(v, t) && (n - v) % Modulus(t) == 0 && (v == n <==> Fits(n, t))
  {
    AcceptedIsExactIff(text, t);
  }

  /** A number that fits is read off its digits, decimal or hexadecimal, in either case, with or without a minus sign. */
  lemma FittingNumbersParse(negative: bool, hex: bool, body: string, ds: seq<nat>, t: Target)
    requires Width(t) && ds != [] && Spells(body, ds, Base(hex))
    requires Fits(Signed(negative, NumberOf(ds, Base(hex))), t) && (t.signed || !negative)
    ensures Parsed(Spelled(negative, hex, body), t) == Some(Signed(negative, NumberOf(ds, Base(hex))))
  {
    SpelledValue(body, ds, hex);
    SplitSpelled(negative, hex, body);
    FittingSplit(Spelled(negative, hex, body), IntegerDesc(negative, Base(hex), body), NumberOf(ds, Base(hex)), t);
  }

  /** Whatever number the digits make, what is accepted is that number modulo the width, and the number itself iff it fits. */
  lemma AcceptedNumbersAreExactIff(text: string, negative: bool, hex: bool, body: string, ds: seq<nat>, n: int, t: Target,
                                   v: int)
    requires Width(t) && text == Spelled(negative, hex, body) && ds != [] && Spells(body, ds, Base(hex))
    requires n == Signed(negative, NumberOf(ds, Base(hex))) && Parsed(text, t) == Some(v)
    ensures Fits(v, t) && (n - v) % Modulus(t) == 0 && (v == n <==> Fits(n, t))
  {
    SpelledValue(body, ds, hex);
    SplitSpelled(negative, hex, body);
    AcceptedSplit(text, IntegerDesc(negative, Base(hex), body), n, t, v);
  }

  lemma SplitIsSpelled(text: string, desc: IntegerDesc)
    requires SplitInteger(text) == Some(desc)
    ensures desc.value != "" && desc.base == Base(desc.base == 16)
    ensures text == Spelled(desc.negative, desc.base == 16, desc.value)
  {
    var rest := if desc.negative then text[1..] else text;
    var tail := (if desc.base == 16 then "0x" else "") + desc.value;
    assert rest == tail;
    assert if desc.negative then text == "-" + tail else text == "" + tail;
  }

  lemma ParsedIsNumeral(text: string, t: Target) returns (desc: IntegerDesc)
    requires Parsed(text, t).Some?
    ensures SplitInteger(text) == Some(desc) && IsNumeral(desc.value, desc.base) && (desc.negative ==> t.signed)
  {
    desc := SplitInteger(text).value;
  }

  /** Nothing else is accepted: no empty text, no sign or prefix alone, no minus sign for an unsigned target. */
  lemma OnlyNumbersParse(text: string, t: Target) returns (negative: bool, hex: bool, body: string, ds: seq<nat>)
    requires Parsed(text, t).Some?
    ensures text == Spelled(negative, hex, body) && ds != [] && Spells(body, ds, Base(hex)) && (negative ==> t.signed)
  {
    var desc := ParsedIsNumeral(text, t);
    SplitIsSpelled(text, desc);
    negative, hex, body := desc.negative, desc.base == 16, desc.value;
    ds := SpellingOf(body, hex);
  }

  /** The hexadecimal text of a number, with the letters of one case. */
  function Hexadecimal(n: nat, upper: bool): string {
    var digit := if upper then UpperDigits[n % 16] else Digits[n % 16];
    if n < 16 then [digit] else Hexadecimal(n / 16, upper) + [digit]
  }

  lemma {:induction false} HexadecimalDigits(n: nat, upper: bool) returns (ds: seq<nat>)
    ensures ds != [] && Spells(Hexadecimal(n, upper), ds, 16) && NumberOf(ds, 16) == n
  {
    if n < 16 {
      ds := [n];
      assert ds[..0] == [];
    } else {
      var before := HexadecimalDigits(n / 16, upper);
      ds := before + [n % 16];
      assert ds[..|ds| - 1] == before;
    }
  }

  /** Hexadecimal texts of fitting numbers parse back, with either sign. */
  lemma {:induction false} PrintedHexadecimalsParse(n: nat, upper: bool, t: Target)
    requires Width(t)
    ensures Fits(n, t) ==> Parsed("0x" + Hexadecimal(n, upper), t) == Some(n)
    ensures Fits(Signed(true, n), t) && t.signed ==>
              Parsed("-0x" + Hexadecimal(n, upper), t) == Some(Signed(true, n))
  {
    var text := Hexadecimal(n, upper);
    var ds := HexadecimalDigits(n, upper);
    assert "" + ("0x" + text) == "0x" + text && "-" + ("0x" + text) == "-0x" + text;
    if Fits(n, t) { FittingNumbersParse(false, true, text, ds, t); }
    if Fits(Signed(true, n), t) && t.signed { FittingNumbersParse(true, true, text, ds, t); }
  }

  /** Printed numbers come back exactly within the range of the type: for 8 bits, -128 to 127 and 0 to 255. */
  lemma {:induction false} ByteRange(v: int)
    ensures Parsed(IntText(v), Target(8, true)) == Some(v) <==> -128 <= v <= 127
    ensures Parsed(IntText(v), Target(8, false)) == Some(v) <==> 0 <= v <= 255
  {
    assert Pow2(8) == 256;
    assert Fits(v, Target(8, true)) <==> -128 <= v <= 127;
    assert Fits(v, Target(8, false)) <==> 0 <= v <= 255;
    RangeIsExact(v, Target(8, true));
    RangeIsExact(v, Target(8, false));
  }

  lemma RangeIsExact(v: int, t: Target)
    requires Width(t)
    ensures Parsed(IntText(v), t) == Some(v) <==> Fits(v, t)
  {
    if Fits(v, t) { PrintedNumbersParse(v, t); }
    if Parsed(IntText(v), t) == Some(v) { AcceptedIsExactIff(IntText(v), t); }
  }
}
