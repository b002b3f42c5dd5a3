/**
 Character string literals of section 5.3 <literal> of ISO/IEC 9075-2, in which a quote is written
 as two quotes: the three escapers of the program, and the reader that undoes them.
 */
module SqlLiterals {
  import opened Wrappers
  import opened Text

  function Doubled(s: string): string {
    if s == "" then "" else (if s[0] == '\'' then "''" else [s[0]]) + Doubled(s[1..])
  }

  function Quoted(s: string): string {
    "'" + Doubled(s) + "'"
  }

  /** `Repository::escapeString` doubles backslashes as well. */
  function Escaped(s: string): string {
    if s == "" then ""
    else (if s[0] == '\'' then "''" else if s[0] == '\\' then "\\\\" else [s[0]]) + Escaped(s[1..])
  }

  lemma DoubledConcat(a: string, b: string)
    ensures Doubled(a + b) == Doubled(a) + Doubled(b)
  {
    if a == "" {
      assert a + b == b;
    } else {
      assert (a + b)[1..] == a[1..] + b;
    }
  }

  lemma EscapedConcat(a: string, b: string)
    ensures Escaped(a + b) == Escaped(a) + Escaped(b)
  {
    if a == "" {
      assert a + b == b;
    } else {
      assert (a + b)[1..] == a[1..] + b;
    }
  }

  /** The loop of `SybPreparedStatement::bindString`. */
  method EscapePerCharacter(value: string) returns (escaped: string)
    ensures escaped == Doubled(value)
  {
    escaped := "";
    for i := 0 to |value|
      invariant escaped == Doubled(value[..i])
    {
      DoubledConcat(value[..i], [value[i]]);
      assert value[..i + 1] == value[..i] + [value[i]];
      if value[i] == '\'' {
        escaped := escaped + "''";
      } else {
        escaped := escaped + [value[i]];
      }
    }
    assert value[..|value|] == value;
  }

  /** The loop of `Repository::escapeString`. */
  method EscapeString(str: string) returns (escaped: string)
    ensures escaped == Escaped(str)
  {
    escaped := "";
    for i := 0 to |str|
      invariant escaped == Escaped(str[..i])
    {
      EscapedConcat(str[..i], [str[i]]);
      assert str[..i + 1] == str[..i] + [str[i]];
      if str[i] == '\'' {
        escaped := escaped + "''";
      } else if str[i] == '\\' {
        escaped := escaped + "\\\\";
      } else {
        escaped := escaped + [str[i]];
      }
    }
    assert str[..|str|] == str;
  }

  /** The loop of `SybaseStatement::bindString`: finds each quote and inserts another, in place. */
  method EscapeInPlace(value: string) returns (escaped: string)
    ensures escaped == Doubled(value)
  {
    escaped := value;
    var pos := Find(escaped, "'", 0);
    ghost var done, rest, whole := "", value, Doubled(value);
    StartOfDoubling(value);
    while pos.Some?
      invariant Halfway(escaped, done, rest, whole) && pos == Find(escaped, "'", |done|)
      decreases |rest|
    {
      ghost var done', after := DoubleNext(escaped, done, rest, pos.value, whole);
      escaped := escaped[..pos.value] + "'" + escaped[pos.value..];
      done, rest := done', after;
      pos := Find(escaped, "'", pos.value + 2);
    }
    EndOfDoubling(escaped, done, rest, whole);
  }

  /** `done` is final, `rest` still to be searched, and `whole` the text to arrive at. */
  ghost predicate Halfway(escaped: string, done: string, rest: string, whole: string) {
    escaped == done + rest && done + Doubled(rest) == whole
  }

  lemma StartOfDoubling(value: string)
    ensures Halfway(value, "", value, Doubled(value))
  {
  }

  lemma DoubleNext(escaped: string, done: string, rest: string, pos: nat, whole: string)
    returns (done': string, after: string)
    requires Halfway(escaped, done, rest, whole) && Find(escaped, "'", |done|) == Some(pos)
    ensures pos < |escaped| && Halfway(escaped[..pos] + "'" + escaped[pos..], done', after, whole)
    ensures |done'| == pos + 2 && |after| < |rest|
  {
    var plain;
    plain, after := QuoteSplits(done, rest, pos);
    Splice(done, plain, after);
    DoublingStep(done, plain, after);
    done' := done + plain + "''";
  }

  lemma EndOfDoubling(escaped: string, done: string, rest: string, whole: string)
    requires Halfway(escaped, done, rest, whole) && Find(escaped, "'", |done|) == None
    ensures escaped == whole
  {
    NoQuotes(done, rest);
  }

  lemma QuoteAt(done: string, rest: string, i: nat)
    requires i < |rest|
    ensures MatchAt(done + rest, "'", |done| + i) <==> rest[i] == '\''
  {
    assert (done + rest)[|done| + i..|done| + i + 1] == [rest[i]];
  }

  lemma QuoteSplits(done: string, rest: string, pos: nat) returns (plain: string, after: string)
    requires Find(done + rest, "'", |done|) == Some(pos)
    ensures rest == plain + "'" + after && pos == |done| + |plain| && Doubled(plain) == plain
  {
    FindsFirst(done + rest, "'", |done|);
    var i := pos - |done|;
    QuoteAt(done, rest, i);
    forall j | 0 <= j < i ensures rest[j] != '\'' {
      QuoteAt(done, rest, j);
      assert !MatchAt(done + rest, "'", |done| + j);
    }
    plain, after := rest[..i], rest[i + 1..];
    DoubledOfPlain(plain);
  }

  lemma NoQuotes(done: string, rest: string)
    requires Find(done + rest, "'", |done|) == None
    ensures Doubled(rest) == rest
  {
    FindsFirst(done + rest, "'", |done|);
    forall j | 0 <= j < |rest| ensures rest[j] != '\'' {
      QuoteAt(done, rest, j);
      assert !MatchAt(done + rest, "'", |done| + j);
    }
    DoubledOfPlain(rest);
  }

  lemma Splice(done: string, plain: string, after: string)
    ensures var s := done + (plain + "'" + after);
            s[..|done| + |plain|] + "'" + s[|done| + |plain|..] == done + plain + "''" + after
  {
    SpliceAgain(done, plain, "'", after);
    assert "'" + "'" == "''";
  }

  lemma DoublingStep(done: string, plain: string, after: string)
    requires Doubled(plain) == plain
    ensures done + Doubled(plain + "'" + after) == done + plain + "''" + Doubled(after)
  {
    DoubledConcat(plain + "'", after);
    DoubledConcat(plain, "'");
    assert Doubled("'") == "''";
    Assoc4(done, plain, "''", Doubled(after));
  }

  lemma SpliceAgain(done: string, a: string, q: string, b: string)
    ensures var s := done + (a + q + b);
            s[..|done| + |a|] + q + s[|done| + |a|..] == done + a + (q + q) + b
  {
    var s := done + (a + q + b);
    assert s[..|done| + |a|] == done + a;
    assert s[|done| + |a|..] == q + b;
  }

  lemma DoubledOfPlain(s: string)
    requires forall j :: 0 <= j < |s| ==> s[j] != '\''
    ensures Doubled(s) == s
  {
  }

  // ---- the literal reader -----------------------------------------------------------------

  /** Reads the characters of a literal whose opening quote has been consumed: value and remaining input. */
  function ReadBody(input: string): Option<(string, string)> {
    if input == "" then None
    else if input[0] != '\'' then
      match ReadBody(input[1..])
      case None => None
      case Some((value, rest)) => Some(([input[0]] + value, rest))
    else if 1 < |input| && input[1] == '\'' then
      match ReadBody(input[2..])
      case None => None
      case Some((value, rest)) => Some(("'" + value, rest))
    else Some(("", input[1..]))
  }

  function ReadLiteral(input: string): Option<(string, string)> {
    if input != "" && input[0] == '\'' then ReadBody(input[1..]) else None
  }

  lemma {:induction false} ReadBodyOfDoubled(value: string, rest: string)
    requires rest == "" || rest[0] != '\''
    ensures ReadBody(Doubled(value) + "'" + rest) == Some((value, rest))
  {
    var input := Doubled(value) + "'" + rest;
    if value == "" {
      assert input == "'" + rest;
    } else {
      assert value == [value[0]] + value[1..];
      ReadBodyOfDoubled(value[1..], rest);
      var tail := Doubled(value[1..]) + "'" + rest;
      if value[0] == '\'' {
        assert input == "''" + tail;
        assert input[2..] == tail;
      } else {
        assert input == [value[0]] + tail;
        assert input[1..] == tail;
      }
    }
  }

  /**
   Quoting is undone by reading: whatever follows, unless it starts with a quote, the reader returns
   the original string and stops right behind the closing quote.
   */
  lemma QuotingRoundTrip(value: string, rest: string)
    requires rest == "" || rest[0] != '\''
    ensures ReadLiteral(Quoted(value) + rest) == Some((value, rest))
  {
    ReadBodyOfDoubled(value, rest);
    assert (Quoted(value) + rest)[1..] == Doubled(value) + "'" + rest;
  }

  lemma DoubledFirst(c: char, v: string, rest: string)
    ensures Doubled([c] + v) + "'" + rest == (if c == '\'' then "''" else [c]) + (Doubled(v) + "'" + rest)
  {
    var head := if c == '\'' then "''" else [c];
    assert ([c] + v)[0] == c && ([c] + v)[1..] == v;
    Assoc4(head, Doubled(v), "'", rest);
    assert Doubled([c] + v) == head + Doubled(v);
  }

  lemma {:induction false} ReadBodyIsDoubled(input: string, value: string, rest: string)
    requires ReadBody(input) == Some((value, rest))
    ensures input == Doubled(value) + "'" + rest && (rest == "" || rest[0] != '\'')
    decreases |input|
  {
    if input[0] == '\'' && !(1 < |input| && input[1] == '\'') {
      assert input == "'" + rest && Doubled("") + "'" == "'";
    } else {
      var n := if input[0] == '\'' then 2 else 1;
      var v := ReadBody(input[n..]).value.0;
      ReadBodyIsDoubled(input[n..], v, rest);
      DoubledFirst(input[0], v, rest);
      assert input == input[..n] + input[n..] && value == [input[0]] + v;
    }
  }

  /** Only one literal reads back as a given string: the quoted one. */
  lemma LiteralIsUnique(text: string, value: string)
    ensures ReadLiteral(text) == Some((value, "")) <==> text == Quoted(value)
  {
    QuotingRoundTrip(value, "");
    assert Quoted(value) + "" == Quoted(value);
    if ReadLiteral(text) == Some((value, "")) {
      ReadBodyIsDoubled(text[1..], value, "");
      assert text == "'" + text[1..] && Doubled(value) + "'" + "" == Doubled(value) + "'";
    }
  }

  /** The body of a literal for a server in which a backslash stands for the character behind it, whatever that is. */
  function ReadBackslashBody(input: string): Option<(string, string)> {
    if input == "" then None
    else
      var special := input[0] == '\\' || (input[0] == '\'' && 1 < |input| && input[1] == '\'');
      if input[0] == '\'' && !special then Some(("", input[1..]))
      else
        var n := if special then 2 else 1;
        if |input| < n then None
        else match ReadBackslashBody(input[n..])
          case None => None
          case Some((value, rest)) => Some(([input[n - 1]] + value, rest))
  }

  /** On such a server `escapeString` is right for every string. */
  lemma {:induction false} EscapedReadsBackThere(s: string, rest: string)
    requires rest == "" || rest[0] != '\''
    ensures ReadBackslashBody(Escaped(s) + "'" + rest) == Some((s, rest))
  {
    if s == "" {
      assert Escaped(s) + "'" + rest == "'" + rest;
    } else {
      var tail := Escaped(s[1..]) + "'" + rest;
      var head := if s[0] == '\'' then "''" else if s[0] == '\\' then "\\\\" else [s[0]];
      EscapedReadsBackThere(s[1..], rest);
      Assoc4(head, Escaped(s[1..]), "'", rest);
      assert Escaped(s) + "'" + rest == head + tail;
      assert (head + tail)[|head|..] == tail;
      assert s == [s[0]] + s[1..];
    }
  }

  function Backslashes(s: string): nat {
    if s == "" then 0 else (if s[0] == '\\' then 1 else 0) + Backslashes(s[1..])
  }

  lemma BackslashFree(s: string)
    ensures Backslashes(s) == 0 <==> '\\' !in s
  {
  }

  lemma EscapedLength(s: string)
    ensures |Escaped(s)| == |Doubled(s)| + Backslashes(s)
    ensures Backslashes(s) == 0 ==> Escaped(s) == Doubled(s)
  {
  }

  /** `escapeString` agrees with the quote doublers exactly on backslash-free strings. */
  lemma EscapersAgreeIff(s: string)
    ensures Escaped(s) == Doubled(s) <==> '\\' !in s
  {
    EscapedLength(s);
    BackslashFree(s);
  }

  /** So the literal `insert` writes reads back as the stored string exactly when it has no backslash. */
  lemma {:induction false} EscapedReadsBackIff(s: string, rest: string)
    requires rest == "" || rest[0] != '\''
    ensures ReadLiteral("'" + Escaped(s) + "'" + rest) == Some((s, rest)) <==> '\\' !in s
  {
    var sent := WithBackslashes(s);
    EscapedIsDoubled(s);
    QuotingRoundTrip(sent, rest);
    assert "'" + Escaped(s) + "'" + rest == Quoted(sent) + rest;
    BackslashFree(s);
  }

  /** What the server reads when every backslash was doubled on the way. */
  function WithBackslashes(s: string): (r: string)
    ensures |r| == |s| + Backslashes(s) && (Backslashes(s) == 0 ==> r == s)
  {
    if s == "" then "" else (if s[0] == '\\' then "\\\\" else [s[0]]) + WithBackslashes(s[1..])
  }

  lemma EscapedIsDoubled(s: string)
    ensures Escaped(s) == Doubled(WithBackslashes(s))
  {
    if s != "" {
      DoubledConcat(if s[0] == '\\' then "\\\\" else [s[0]], WithBackslashes(s[1..]));
      assert Doubled("\\\\") == "\\\\";
      assert Doubled([s[0]]) == if s[0] == '\'' then "''" else [s[0]];
    }
  }

  lemma QuotedDollarFree(s: string)
    requires DollarFree(s)
    ensures DollarFree(Quoted(s)) && DollarFree(Doubled(s)) && DollarFree(Escaped(s))
  {
    if s != "" { QuotedDollarFree(s[1..]); }
  }
}
