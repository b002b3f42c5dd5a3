/**
 `SybPreparedStatement`: parameters are rendered to text as they are bound, and the final SQL is
 made by one replace-all pass per parameter over the growing text.
 */
module SybPreparedStatements {
  import opened Wrappers
  import opened Text
  import opened SqlLiterals
  import opened Placeholders

  function Resized(ps: seq<string>, n: nat): (r: seq<string>)
    ensures |r| == if n <= |ps| then |ps| else n
    ensures ps <= r && forall i :: |ps| <= i < |r| ==> r[i] == ""
  {
    if n <= |ps| then ps else ps + seq(n - |ps|, _ => "")
  }

  function Bound(ps: seq<string>, index: nat, text: string): seq<string>
    requires 0 < index
  {
    Resized(ps, index)[index - 1 := text]
  }

  /** One pass: every occurrence of the pattern, left to right, inserted text not rescanned. */
  function ReplaceAll(s: string, pat: string, val: string): string
    requires pat != ""
    decreases |s|
  {
    if s == "" then "" else if pat <= s then val + ReplaceAll(s[|pat|..], pat, val)
    else [s[0]] + ReplaceAll(s[1..], pat, val)
  }

  /** The text after the first `i` passes. */
  function Passes(sql: string, ps: seq<string>, i: nat): string
    requires i <= |ps|
  {
    if i == 0 then sql else ReplaceAll(Passes(sql, ps, i - 1), Placeholder(i), ps[i - 1])
  }

  function FinalSQL(sql: string, ps: seq<string>): string {
    Passes(sql, ps, |ps|)
  }

  datatype BindError = BadIndex

  class SybPreparedStatement {
    const sql: string
    var params: seq<string>

    constructor (sql: string)
      ensures this.sql == sql && params == []
    {
      this.sql, params := sql, [];
    }

    method Store(index: int, text: string) returns (r: Result<(), BindError>)
      modifies this
      ensures r.Ok? <==> 0 < index
      ensures params == if 0 < index then Bound(old(params), index, text) else old(params)
    {
      if index <= 0 {
        return Err(BadIndex);
      }
      params := Resized(params, index);
      params := params[index - 1 := text];
      return Ok(());
    }

    method BindInt(index: int, value: int) returns (r: Result<(), BindError>)
      modifies this
      ensures r.Ok? <==> 0 < index
      ensures params == if 0 < index then Bound(old(params), index, IntText(value)) else old(params)
    {
      r := Store(index, IntText(value));
    }

    method BindString(index: int, value: string) returns (r: Result<(), BindError>)
      modifies this
      ensures r.Ok? <==> 0 < index
      ensures params == if 0 < index then Bound(old(params), index, Quoted(value)) else old(params)
    {
      var escaped := EscapePerCharacter(value);
      r := Store(index, "'" + escaped + "'");
    }

    method BuildFinalSQL() returns (result: string)
      ensures result == FinalSQL(sql, params)
    {
      result := sql;
      for i := 0 to |params|
        invariant result == Passes(sql, params, i)
      {
        var placeholder := "$" + Decimal(i + 1);
        result := ReplacePass(result, placeholder, params[i]);
      }
    }
  }

  /** The inner loop; it terminates because the text behind `pos` shrinks even when the whole grows. */
  method ReplacePass(s: string, placeholder: string, val: string) returns (result: string)
    requires placeholder != ""
    ensures result == ReplaceAll(s, placeholder, val)
  {
    result := s;
    var n: nat := 0;
    var pos := Find(result, placeholder, n);
    ghost var whole := ReplaceAll(s, placeholder, val);
    StartOfPass(s, placeholder, val);
    while pos.Some?
      invariant pos == Find(result, placeholder, n)
      invariant Midway(result, n, placeholder, val, whole)
      decreases |result| - n
    {
      MatchReplaced(result, n, placeholder, val, pos.value, whole);
      result := Replace(result, pos.value, |placeholder|, val);
      n := pos.value + |val|;
      pos := Find(result, placeholder, n);
    }
    EndOfPass(result, n, placeholder, val, whole);
  }

  /** The first `n` characters are final, the rest still to be searched, and `whole` is to come out. */
  ghost predicate Midway(result: string, n: nat, pat: string, val: string, whole: string)
    requires pat != ""
  {
    n <= |result| && result[..n] + ReplaceAll(result[n..], pat, val) == whole
  }

  lemma StartOfPass(s: string, pat: string, val: string)
    requires pat != ""
    ensures Midway(s, 0, pat, val, ReplaceAll(s, pat, val))
  {
    assert s[..0] == "" && s[0..] == s;
  }

  lemma MatchReplaced(result: string, n: nat, pat: string, val: string, pos: nat, whole: string)
    requires pat != "" && Midway(result, n, pat, val, whole) && Find(result, pat, n) == Some(pos)
    ensures var next := Replace(result, pos, |pat|, val);
            Midway(next, pos + |val|, pat, val, whole) && |next| - (pos + |val|) < |result| - n
  {
    var done, rest := result[..n], result[n..];
    assert result == done + rest;
    var done', after := ReplaceStep(done, rest, pat, val, pos);
    var next := Replace(result, pos, |pat|, val);
    assert next[..|done'|] == done' && next[|done'|..] == after;
  }

  lemma EndOfPass(result: string, n: nat, pat: string, val: string, whole: string)
    requires pat != "" && Midway(result, n, pat, val, whole) && Find(result, pat, n) == None
    ensures result == whole
  {
    assert result == result[..n] + result[n..];
    NoMatchLeft(result[..n], result[n..], pat, val);
  }

  /** Replacing the first match behind `done` moves it, replaced, into the finished part. */
  lemma ReplaceStep(done: string, rest: string, pat: string, val: string, pos: nat)
    returns (done': string, after: string)
    requires pat != "" && Find(done + rest, pat, |done|) == Some(pos)
    ensures pos + |pat| <= |done + rest| && Replace(done + rest, pos, |pat|, val) == done' + after
    ensures |done'| == pos + |val| && |after| < |rest|
    ensures done' + ReplaceAll(after, pat, val) == done + ReplaceAll(rest, pat, val)
  {
    var plain;
    plain, after := MatchSplits(done, rest, pat, pos);
    SkipToMatch(plain, pat, after, val);
    ReplaceAt(done, plain, pat, after, val);
    done' := done + plain + val;
    Assoc4(done, plain, val, ReplaceAll(after, pat, val));
  }

  lemma MatchBehind(done: string, rest: string, pat: string, i: nat)
    ensures MatchAt(done + rest, pat, |done| + i) <==> MatchAt(rest, pat, i)
  {
    if i + |pat| <= |rest| {
      assert (done + rest)[|done| + i..|done| + i + |pat|] == rest[i..i + |pat|];
    }
  }

  lemma MatchSplits(done: string, rest: string, pat: string, pos: nat)
    returns (plain: string, after: string)
    requires pat != "" && Find(done + rest, pat, |done|) == Some(pos)
    ensures rest == plain + (pat + after) && pos == |done| + |plain|
    ensures forall j :: 0 <= j < |plain| ==> !MatchAt(rest, pat, j)
  {
    FindsFirst(done + rest, pat, |done|);
    var i := pos - |done|;
    MatchBehind(done, rest, pat, i);
    forall j | 0 <= j < i ensures !MatchAt(rest, pat, j) {
      MatchBehind(done, rest, pat, j);
      assert !MatchAt(done + rest, pat, |done| + j);
    }
    plain, after := rest[..i], rest[i + |pat|..];
  }

  lemma {:induction false} SkipToMatch(plain: string, pat: string, after: string, val: string)
    requires pat != "" && forall j :: 0 <= j < |plain| ==> !MatchAt(plain + (pat + after), pat, j)
    ensures ReplaceAll(plain + (pat + after), pat, val) == plain + val + ReplaceAll(after, pat, val)
  {
    var s := plain + (pat + after);
    if plain == "" {
      assert s == pat + after && s[|pat|..] == after;
    } else {
      var head, tail := [plain[0]], plain[1..];
      var s' := tail + (pat + after);
      assert s == head + s' && s[1..] == s';
      assert !(pat <= s) by { assert !MatchAt(s, pat, 0); }
      forall j | 0 <= j < |tail| ensures !MatchAt(s', pat, j) {
        assert !MatchAt(s, pat, j + 1);
        MatchBehind(head, s', pat, j);
      }
      SkipToMatch(tail, pat, after, val);
      assert plain == head + tail;
      Assoc4(head, tail, val, ReplaceAll(after, pat, val));
    }
  }

  lemma ReplaceAt(done: string, plain: string, pat: string, after: string, val: string)
    ensures Replace(done + (plain + (pat + after)), |done| + |plain|, |pat|, val) == done + plain + val + after
  {
    var s := done + (plain + (pat + after));
    assert s[..|done| + |plain|] == done + plain;
    assert s[|done| + |plain| + |pat|..] == after;
  }

  lemma NoMatchLeft(done: string, rest: string, pat: string, val: string)
    requires pat != "" && Find(done + rest, pat, |done|) == None
    ensures ReplaceAll(rest, pat, val) == rest
  {
    FindsFirst(done + rest, pat, |done|);
    forall j: nat ensures !MatchAt(rest, pat, j) {
      MatchBehind(done, rest, pat, j);
      assert !MatchAt(done + rest, pat, |done| + j);
    }
    NothingToReplace(rest, pat, val);
  }

  lemma {:induction false} NothingToReplace(s: string, pat: string, val: string)
    requires pat != "" && forall j: nat :: !MatchAt(s, pat, j)
    ensures ReplaceAll(s, pat, val) == s
    decreases |s|
  {
    if s != "" {
      assert !(pat <= s) by { assert !MatchAt(s, pat, 0); }
      assert s == [s[0]] + s[1..];
      forall j: nat ensures !MatchAt(s[1..], pat, j) {
        assert !MatchAt(s, pat, j + 1);
        MatchBehind([s[0]], s[1..], pat, j);
      }
      NothingToReplace(s[1..], pat, val);
    }
  }

  /** Parts of a text with the same text between each two of them. */
  function Glue(parts: seq<string>, between: string): string {
    if parts == [] then "" else if |parts| == 1 then parts[0] else parts[0] + between + Glue(parts[1..], between)
  }

  /** The pattern behind the part is the first one there. */
  predicate UpToMatch(part: string, pat: string) {
    forall j :: 0 <= j < |part| ==> !MatchAt(part + pat, pat, j)
  }

  predicate WithoutMatch(part: string, pat: string) {
    forall j :: 0 <= j <= |part| ==> !MatchAt(part, pat, j)
  }

  predicate CutAtMatches(parts: seq<string>, pat: string) {
    && parts != [] && WithoutMatch(parts[|parts| - 1], pat)
    && forall i :: 0 <= i < |parts| - 1 ==> UpToMatch(parts[i], pat)
  }

  /**
   A pass cuts the text at the occurrences of the placeholder, each the first one behind the last cut, and
   puts the value into every cut.
   */
  lemma {:induction false} PassReplacesEach(s: string, pat: string, val: string) returns (parts: seq<string>)
    requires pat != ""
    ensures CutAtMatches(parts, pat) && Glue(parts, pat) == s && Glue(parts, val) == ReplaceAll(s, pat, val)
    decreases |s|
  {
    if s == "" {
      parts := [""];
    } else if pat <= s {
      var rest := PassReplacesEach(s[|pat|..], pat, val);
      parts := [""] + rest;
      CutBefore(rest, pat);
      MatchFirst(rest, pat);
      MatchFirst(rest, val);
      assert s == pat + s[|pat|..];
    } else {
      var rest := PassReplacesEach(s[1..], pat, val);
      parts := [[s[0]] + rest[0]] + rest[1..];
      LongerFirst(s[0], rest, pat);
      LongerFirst(s[0], rest, val);
      assert s == [s[0]] + s[1..];
      CutLonger(s, rest, parts, pat);
    }
  }

  lemma MatchFirst(rest: seq<string>, between: string)
    requires rest != []
    ensures Glue([""] + rest, between) == between + Glue(rest, between)
  {
    assert ([""] + rest)[1..] == rest && "" + between == between;
  }

  lemma CutBefore(rest: seq<string>, pat: string)
    requires CutAtMatches(rest, pat)
    ensures CutAtMatches([""] + rest, pat)
  {
  }

  lemma LongerFirst(c: char, parts: seq<string>, between: string)
    requires parts != []
    ensures Glue([[c] + parts[0]] + parts[1..], between) == [c] + Glue(parts, between)
  {
    var longer := [[c] + parts[0]] + parts[1..];
    if 1 < |parts| {
      assert longer[1..] == parts[1..];
      Assoc4([c], parts[0], between, Glue(parts[1..], between));
    }
  }

  lemma NotInFront(part: string, pat: string, c: char, behind: string)
    requires !(pat <= [c] + part + behind) && forall j :: 0 <= j < |part| ==> !MatchAt(part + behind, pat, j)
    ensures forall j :: 0 <= j < |part| + 1 ==> !MatchAt([c] + part + behind, pat, j)
  {
    var t := [c] + part + behind;
    assert t == [c] + (part + behind);
    forall j | 0 <= j < |part| + 1 ensures !MatchAt(t, pat, j) {
      if 0 < j { MatchBehind([c], part + behind, pat, j - 1); }
    }
  }

  lemma CutLonger(s: string, rest: seq<string>, parts: seq<string>, pat: string)
    requires pat != "" && s != "" && !(pat <= s) && CutAtMatches(rest, pat) && Glue(rest, pat) == s[1..]
    requires parts == [[s[0]] + rest[0]] + rest[1..]
    ensures CutAtMatches(parts, pat)
  {
    var c, part := s[0], rest[0];
    if |rest| == 1 {
      assert part + "" == part && [c] + part + "" == [c] + part == s;
      NotInFront(part, pat, c, "");
    } else {
      var front := [c] + part + pat;
      assert s == front + Glue(rest[1..], pat) by {
        assert s == [c] + s[1..];
        Assoc4([c], part, pat, Glue(rest[1..], pat));
      }
      assert !(pat <= front);
      NotInFront(part, pat, c, pat);
    }
  }
}
