/**
 The description column of the help screen: default suffix, tab expansion and word wrap.

 The program wraps with four cursors into one buffer, one of which moves backwards. The reference
 definition below breaks the buffer line by line instead, and never looks back.
 */
module HelpText {

  function Spaces(n: nat): (r: string)
    ensures |r| == n
  {
    seq(n, _ => ' ')
  }

  predicate Blank(c: char) {
    c == ' ' || c == '\t'
  }

  predicate AllBlank(d: string, i: nat, j: nat)
    requires j <= |d|
  {
    j <= i || (Blank(d[j - 1]) && AllBlank(d, i, j - 1))
  }

  // ---- tab expansion ----------------------------------------------------------------------

  /** The number of characters after the last newline. */
  function Column(s: string): nat {
    if s == "" || s[|s| - 1] == '\n' then 0 else Column(s[..|s| - 1]) + 1
  }

  function Expanded(s: string): string {
    if s == "" then "" else
    var before := Expanded(s[..|s| - 1]);
    var c := s[|s| - 1];
    if c == '\t' then before + Spaces(8 - Column(before) % 8) else before + [c]
  }

  method ExpandTabs(desc: string) returns (desc2: string)
    ensures desc2 == Expanded(desc)
  {
    desc2 := "";
    var size := 0;
    for i := 0 to |desc|
      invariant desc2 == Expanded(desc[..i]) && size == Column(desc2)
    {
      assert desc[..i + 1][..i] == desc[..i];
      if desc[i] == '\n' {
        desc2 := desc2 + ['\n'];
        size := 0;
      } else if desc[i] == '\t' {
        var skip := 8 - size % 8;
        ColumnOfSpaces(desc2, skip);
        desc2 := desc2 + Spaces(skip);
        size := size + skip;
      } else {
        ColumnOfChar(desc2, desc[i]);
        desc2 := desc2 + [desc[i]];
        size := size + 1;
      }
    }
    assert desc[..|desc|] == desc;
  }

  lemma ColumnOfChar(s: string, c: char)
    ensures Column(s + [c]) == if c == '\n' then 0 else Column(s) + 1
  {
    assert (s + [c])[..|s|] == s;
  }

  lemma ColumnOfSpaces(s: string, n: nat)
    ensures Column(s + Spaces(n)) == Column(s) + n
  {
    if n == 0 {
      assert s + Spaces(0) == s;
    } else {
      assert (s + Spaces(n))[..|s| + n - 1] == s + Spaces(n - 1);
      ColumnOfSpaces(s, n - 1);
    }
  }

  /** No tab survives, and whatever follows a tab starts at a multiple of eight columns. */
  lemma {:induction false} TabsReachTabStops(s: string, k: nat)
    requires k < |s| && s[k] == '\t'
    ensures '\t' !in Expanded(s)
    ensures Column(Expanded(s[..k + 1])) % 8 == 0
    ensures Expanded(s[..k + 1]) <= Expanded(s)
  {
    NoTabs(s);
    var before := Expanded(s[..k]);
    assert s[..k + 1][..k] == s[..k];
    ColumnOfSpaces(before, 8 - Column(before) % 8);
    ExpandedPrefix(s, k + 1);
  }

  lemma NoTabs(s: string)
    ensures '\t' !in Expanded(s)
  {
    if s != "" { NoTabs(s[..|s| - 1]); }
  }

  lemma ExpandedPrefix(s: string, k: nat)
    requires k <= |s|
    ensures Expanded(s[..k]) <= Expanded(s)
    decreases |s|
  {
    if k == |s| {
      assert s[..k] == s;
    } else {
      assert s[..|s| - 1][..k] == s[..k];
      ExpandedPrefix(s[..|s| - 1], k);
    }
  }

  /** The text up to `p` ends a multiple of eight characters behind the start of its last line. */
  ghost predicate AtTabStop(e: string, p: nat)
    requires p <= |e|
  {
    exists c: nat :: StopAt(e, p, c)
  }

  predicate StopAt(e: string, p: nat, c: nat)
    requires p <= |e|
  {
    c <= p && c % 8 == 0 && (c == p || e[p - c - 1] == '\n') && forall i :: p - c <= i < p ==> e[i] != '\n'
  }

  /** From `a` to `b` stands the expansion of a character. */
  ghost predicate ExpandsChar(c: char, e: string, a: nat, b: nat)
    requires a <= |e| && b <= |e|
  {
    if c == '\t' then a < b <= a + 8 && (forall i :: a <= i < b ==> e[i] == ' ') && AtTabStop(e, b)
    else b == a + 1 && e[a] == c
  }

  /** `e` is `s` with each tab replaced by blanks up to the next tab stop; `ends` lists where the characters end. */
  ghost predicate ExpandsTo(s: string, e: string, ends: seq<nat>) {
    && |ends| == |s| + 1 && ends[0] == 0 && ends[|s|] == |e|
    && (forall k :: 0 <= k <= |s| ==> ends[k] <= |e|)
    && forall k :: 0 <= k < |s| ==> ExpandsChar(s[k], e, ends[k], ends[k + 1])
  }

  lemma {:induction false} ColumnMeans(s: string)
    ensures var c := Column(s);
            c <= |s| && (c == |s| || s[|s| - c - 1] == '\n') && forall i :: |s| - c <= i < |s| ==> s[i] != '\n'
  {
    if s != "" && s[|s| - 1] != '\n' { ColumnMeans(s[..|s| - 1]); }
  }

  lemma StopStays(e: string, more: string, p: nat)
    requires p <= |e| && AtTabStop(e, p)
    ensures AtTabStop(e + more, p)
  {
    var c: nat :| StopAt(e, p, c);
    assert forall i :: 0 <= i < p ==> (e + more)[i] == e[i];
    assert StopAt(e + more, p, c);
  }

  lemma CharStays(c: char, e: string, more: string, a: nat, b: nat)
    requires a <= |e| && b <= |e| && ExpandsChar(c, e, a, b)
    ensures ExpandsChar(c, e + more, a, b)
  {
    if c == '\t' { StopStays(e, more, b); }
  }

  lemma TabFills(before: string)
    ensures var e := before + Spaces(8 - Column(before) % 8); ExpandsChar('\t', e, |before|, |e|)
  {
    var n := 8 - Column(before) % 8;
    var e := before + Spaces(n);
    ColumnOfSpaces(before, n);
    ColumnMeans(e);
    assert StopAt(e, |e|, Column(before) + n);
  }

  lemma {:induction false} ExpandedExpands(s: string) returns (ends: seq<nat>)
    ensures ExpandsTo(s, Expanded(s), ends)
  {
    if s == "" {
      ends := [0];
    } else {
      var n := |s| - 1;
      var before, e := Expanded(s[..n]), Expanded(s);
      var ends' := ExpandedExpands(s[..n]);
      ends := ends' + [|e|];
      var more := e[|before|..];
      assert e == before + more;
      if s[n] == '\t' { TabFills(before); }
      forall k | 0 <= k < n ensures ExpandsChar(s[k], e, ends[k], ends[k + 1]) {
        CharStays(s[k], before, more, ends'[k], ends'[k + 1]);
      }
    }
  }

  // ---- the reference line breaker ---------------------------------------------------------

  /** What ends the line that starts at an index: the buffer, newlines, or the width. */
  datatype Ending = LastLine | Newlines(next: nat) | Width(next: nat)

  datatype Piece = Piece(text: string, soft: bool)

  function NewlineFrom(d: string, i: nat): (r: nat)
    requires i <= |d|
    ensures i <= r <= |d| && (r < |d| ==> d[r] == '\n')
    decreases |d| - i
  {
    if i == |d| || d[i] == '\n' then i else NewlineFrom(d, i + 1)
  }

  function AfterNewlines(d: string, i: nat): (r: nat)
    requires i <= |d|
    ensures i <= r <= |d| && (r < |d| ==> d[r] != '\n')
    ensures i < |d| && d[|d| - 1] != '\n' ==> r < |d|
    decreases |d| - i
  {
    if i == |d| || d[i] != '\n' then i else AfterNewlines(d, i + 1)
  }

  /** The index after the last blank of `d[s..c]`, or `s` if there is none. */
  function AfterLastBlank(d: string, s: nat, c: nat): (r: nat)
    requires s <= c <= |d|
    ensures s <= r <= c && (r > s ==> Blank(d[r - 1]))
    decreases c
  {
    if c == s || Blank(d[c - 1]) then c else AfterLastBlank(d, s, c - 1)
  }

  function EndOfLine(d: string, allowed: nat, s: nat): (r: Ending)
    requires s < |d| && 0 < allowed && d[|d| - 1] == ' '
    ensures !r.LastLine? ==> s < r.next < |d|
  {
    var newline := NewlineFrom(d, s);
    if newline < |d| && newline - s <= allowed then Newlines(AfterNewlines(d, newline))
    else if s + allowed < |d| then
      var blank := AfterLastBlank(d, s, s + allowed);
      Width(if blank > s then blank else s + allowed)
    else LastLine
  }

  function Pieces(d: string, allowed: nat, s: nat): seq<Piece>
    requires s < |d| && 0 < allowed && d[|d| - 1] == ' '
    decreases |d| - s
  {
    match EndOfLine(d, allowed, s)
    case LastLine => []
    case Newlines(next) => [Piece(d[s..next], false)] + Pieces(d, allowed, next)
    case Width(next) => [Piece(d[s..next], true)] + Pieces(d, allowed, next)
  }

  function LastStart(d: string, allowed: nat, s: nat): (r: nat)
    requires s < |d| && 0 < allowed && d[|d| - 1] == ' '
    ensures s <= r < |d|
    decreases |d| - s
  {
    var ending := EndOfLine(d, allowed, s);
    if ending.LastLine? then s else LastStart(d, allowed, ending.next)
  }

  /** The white-space flag of a line is computed from here on: a later line's first character is skipped. */
  function FirstInspected(s: nat): nat {
    if s == 0 then 0 else s + 1
  }

  /** What is written of the last line, which starts at `s`. */
  function LastText(d: string, s: nat): string
    requires s < |d|
  {
    if AllBlank(d, FirstInspected(s), |d|) then "" else d[s..|d| - 1]
  }

  function WithLine(result: string, text: string, soft: bool, start: nat): string {
    if soft then result + text + "\n" + Spaces(start) else result + text + Spaces(start)
  }

  function Render(pieces: seq<Piece>, start: nat): string {
    if pieces == [] then "" else WithLine("", pieces[0].text, pieces[0].soft, start) + Render(pieces[1..], start)
  }

  /** The whole output, from the line that starts at `s` on. */
  function Wrapped(d: string, start: nat, allowed: nat, s: nat): string
    requires s < |d| && 0 < allowed && d[|d| - 1] == ' '
    decreases |d| - s
  {
    match EndOfLine(d, allowed, s)
    case LastLine => LastText(d, s)
    case Newlines(next) => WithLine("", d[s..next], false, start) + Wrapped(d, start, allowed, next)
    case Width(next) => WithLine("", d[s..next], true, start) + Wrapped(d, start, allowed, next)
  }

  lemma {:induction false} WrappedIsRendered(d: string, start: nat, allowed: nat, s: nat)
    requires s < |d| && 0 < allowed && d[|d| - 1] == ' '
    ensures Wrapped(d, start, allowed, s) ==
            Render(Pieces(d, allowed, s), start) + LastText(d, LastStart(d, allowed, s))
    decreases |d| - s
  {
    var ending := EndOfLine(d, allowed, s);
    if !ending.LastLine? {
      WrappedIsRendered(d, start, allowed, ending.next);
      var pieces, rest := Pieces(d, allowed, s), Pieces(d, allowed, ending.next);
      var head := WithLine("", d[s..ending.next], ending.Width?, start);
      assert pieces[0] == Piece(d[s..ending.next], ending.Width?) && pieces[1..] == rest;
      Assoc(head, Render(rest, start), LastText(d, LastStart(d, allowed, ending.next)));
    }
  }

  /** `rest[s]` is the output from the line that starts at `s` on. */
  ghost predicate AreRests(rest: seq<string>, d: string, start: nat, allowed: nat)
    requires d != "" && d[|d| - 1] == ' ' && 0 < allowed
  {
    |rest| == |d| && forall s {:trigger Wrapped(d, start, allowed, s)} :: 0 <= s < |d| ==>
                       rest[s] == Wrapped(d, start, allowed, s)
  }

  lemma Rests(d: string, start: nat, allowed: nat) returns (rest: seq<string>)
    requires d != "" && d[|d| - 1] == ' ' && 0 < allowed
    ensures AreRests(rest, d, start, allowed)
  {
    rest := seq(|d|, s requires 0 <= s < |d| => Wrapped(d, start, allowed, s));
  }

  /** Ending the line at `next` adds its text, its break and the indent to what is already written. */
  lemma WrappedStep(result: string, d: string, start: nat, allowed: nat, s: nat, soft: bool, next: nat, whole: string)
    requires s < |d| && 0 < allowed && d[|d| - 1] == ' '
    requires EndOfLine(d, allowed, s) == if soft then Width(next) else Newlines(next)
    requires result + Wrapped(d, start, allowed, s) == whole
    ensures WithLine(result, d[s..next], soft, start) + Wrapped(d, start, allowed, next) == whole
  {
    var text, rest := d[s..next], Wrapped(d, start, allowed, next);
    assert Wrapped(d, start, allowed, s) == WithLine("", text, soft, start) + rest;
    Regroup(result, text, soft, start, rest);
  }

  lemma Assoc(a: string, b: string, c: string)
    ensures a + b + c == a + (b + c)
  {
  }

  lemma Regroup(result: string, text: string, soft: bool, start: nat, rest: string)
    ensures WithLine(result, text, soft, start) + rest == result + (WithLine("", text, soft, start) + rest)
  {
  }

  // ---- the wrapping loop ------------------------------------------------------------------

  /** The cursors and flags of the loop, as they stand at the loop test. */
  ghost predicate Cursors(d: string, allowed: nat, startLine: nat, lastSpace: nat, current: nat, onlyWhiteSpace: bool)
  {
    && startLine <= lastSpace <= current <= |d|
    && startLine < |d|
    && (0 < startLine ==> startLine < current)
    && current - startLine <= allowed
    && current <= NewlineFrom(d, startLine)
    && lastSpace == AfterLastBlank(d, startLine, Before(current))
    && onlyWhiteSpace == AllBlank(d, FirstInspected(startLine), current)
  }

  function Before(i: nat): nat {
    if i == 0 then 0 else i - 1
  }

  lemma CursorsAdvance(d: string, allowed: nat, startLine: nat, lastSpace: nat, current: nat, onlyWhiteSpace: bool,
                       lastSpace': nat, onlyWhiteSpace': bool)
    requires Cursors(d, allowed, startLine, lastSpace, current, onlyWhiteSpace) && current < |d|
    requires lastSpace' == if Blank(d[Before(current)]) then current else lastSpace
    requires onlyWhiteSpace' == (onlyWhiteSpace && Blank(d[current]))
    ensures lastSpace' == AfterLastBlank(d, startLine, current)
    ensures current - startLine < allowed && d[current] != '\n' ==>
              Cursors(d, allowed, startLine, lastSpace', current + 1, onlyWhiteSpace')
  {
    BlankNext(d, startLine, current);
    AllBlankNext(d, FirstInspected(startLine), current);
    if d[current] != '\n' {
      NewlineLater(d, startLine, current);
    }
  }

  lemma BlankNext(d: string, s: nat, c: nat)
    requires s <= c < |d|
    ensures AfterLastBlank(d, s, c) == if 0 < c && s < c && !Blank(d[c - 1]) then AfterLastBlank(d, s, c - 1) else c
  {
  }

  lemma AllBlankNext(d: string, i: nat, j: nat)
    requires j < |d|
    ensures AllBlank(d, i, j + 1) <==> j < i || (Blank(d[j]) && AllBlank(d, i, j))
  {
  }

  lemma NewlineLater(d: string, i: nat, k: nat)
    requires i <= k < |d| && k <= NewlineFrom(d, i) && d[k] != '\n'
    ensures k < NewlineFrom(d, i)
  {
  }

  lemma CursorsAtLineStart(d: string, allowed: nat, current: nat)
    requires 0 < current < |d| && 0 < allowed && d[current] != '\n'
    ensures Cursors(d, allowed, current, current, current + 1, true)
  {
  }

  method SkipNewlines(d: string, top: nat, previous0: nat) returns (current: nat, previous: nat, moved: bool)
    requires top < |d| && d[|d| - 1] == ' ' && previous0 == Before(top)
    ensures top <= current < |d| && d[current] != '\n' && (forall k :: top <= k < current ==> d[k] == '\n')
    ensures previous == Before(current) && (moved <==> top < current)
  {
    current, previous, moved := top, previous0, false;
    while d[current] == '\n'
      invariant top <= current < |d|
      invariant forall k :: top <= k < current ==> d[k] == '\n'
      invariant previous == Before(current) && (moved <==> top < current)
      decreases |d| - current
    {
      previous := current;
      current := current + 1;
      moved := true;
    }
  }

  lemma NoNewlineBefore(d: string, i: nat, k: nat)
    requires i <= k < |d| && (k < NewlineFrom(d, i) || d[k] != '\n')
    ensures d[k] != '\n'
    decreases k - i
  {
    if i < k && k < NewlineFrom(d, i) { NoNewlineBefore(d, i + 1, k); }
  }

  lemma FirstNewline(d: string, i: nat, k: nat)
    requires i <= k < |d| && d[k] == '\n'
    ensures NewlineFrom(d, i) <= k
    decreases k - i
  {
    if i < k { FirstNewline(d, i + 1, k); }
  }

  lemma EndOfNewlines(d: string, i: nat, j: nat)
    requires i <= j < |d| && d[j] != '\n' && forall k :: i <= k < j ==> d[k] == '\n'
    ensures AfterNewlines(d, i) == j
    decreases j - i
  {
  }

  /** The scan from `s` has reached `top`, and the line is to end: at newlines, or for its width. */
  ghost predicate AtBreak(d: string, allowed: nat, s: nat, top: nat) {
    && s <= top < |d| && d[|d| - 1] == ' ' && 0 < allowed
    && top - s <= allowed && top <= NewlineFrom(d, s)
    && (d[top] == '\n' || top - s == allowed)
  }

  /** Without newlines to end the line, the cursor falls back behind the line's last blank. */
  method FallBack(d: string, allowed: nat, startLine: nat, lastSpace: nat, ghost top: nat,
                  current: nat, previous: nat, moved: bool)
    returns (current': nat, previous': nat)
    requires AtBreak(d, allowed, startLine, top) && top <= current < |d|
    requires lastSpace == AfterLastBlank(d, startLine, top)
    requires d[current] != '\n' && (forall k :: top <= k < current ==> d[k] == '\n')
    requires previous == Before(current) && (moved <==> top < current)
    ensures startLine < current' < |d| && d[current'] != '\n' && previous' < |d|
    ensures EndOfLine(d, allowed, startLine) == if d[previous'] == '\n' then Newlines(current') else Width(current')
  {
    current', previous' := current, previous;
    if moved {
      FirstNewline(d, startLine, top);
      EndOfNewlines(d, top, current);
    } else {
      if lastSpace != startLine {
        current' := lastSpace;
        previous' := current';
      }
      NoNewlineBefore(d, startLine, previous');
      NoNewlineBefore(d, startLine, current');
    }
  }

  method BreakLine(result: string, d: string, start: nat, allowed: nat, startLine: nat, current: nat, previous: nat,
                   ghost rest: seq<string>, ghost whole: string)
    returns (result': string)
    requires startLine < current < |d| && d[|d| - 1] == ' ' && 0 < allowed && previous < |d|
    requires EndOfLine(d, allowed, startLine) == if d[previous] == '\n' then Newlines(current) else Width(current)
    requires AreRests(rest, d, start, allowed) && Remains(result, rest, startLine, whole)
    ensures Remains(result', rest, current, whole)
  {
    WrappedStep(result, d, start, allowed, startLine, d[previous] != '\n', current, whole);
    result' := result + d[startLine..current];
    if d[previous] != '\n' {
      result' := result' + "\n";
    }
    result' := result' + Spaces(start);
  }

  /** What is written and what the line at `s` is to begin make up the whole. */
  ghost predicate Remains(result: string, rest: seq<string>, s: nat, whole: string) {
    s < |rest| && result + rest[s] == whole
  }

  /** Breaks the line where the cursor has stopped, or has fallen back to. */
  method EndLine(result: string, d: string, start: nat, allowed: nat, startLine: nat, lastSpace: nat, ghost top: nat,
                 current: nat, previous: nat, moved: bool, ghost rest: seq<string>, ghost whole: string)
    returns (result': string, current': nat)
    requires AtBreak(d, allowed, startLine, top) && top <= current < |d|
    requires lastSpace == AfterLastBlank(d, startLine, top)
    requires d[current] != '\n' && (forall k :: top <= k < current ==> d[k] == '\n')
    requires previous == Before(current) && (moved <==> top < current)
    requires AreRests(rest, d, start, allowed) && Remains(result, rest, startLine, whole)
    ensures startLine < current' < |d| && Cursors(d, allowed, current', current', current' + 1, true)
    ensures Remains(result', rest, current', whole)
  {
    var previous';
    current', previous' := FallBack(d, allowed, startLine, lastSpace, top, current, previous, moved);
    result' := BreakLine(result, d, start, allowed, startLine, current', previous', rest, whole);
    CursorsAtLineStart(d, allowed, current');
  }

  /** The middle of the loop body: passes newlines, and ends the line if there were some or it is full. */
  method EndLineIfDue(result: string, d: string, start: nat, allowed: nat, startLine: nat, lastSpace: nat, current: nat,
                      previous: nat, size: nat, onlyWhiteSpace: bool, ghost rest: seq<string>, ghost whole: string)
    returns (result': string, startLine': nat, lastSpace': nat, current': nat, size': nat, onlyWhiteSpace': bool)
    requires startLine <= current < |d| && d[|d| - 1] == ' ' && 0 < allowed
    requires current - startLine <= allowed && current <= NewlineFrom(d, startLine)
    requires lastSpace == AfterLastBlank(d, startLine, current) && previous == Before(current)
    requires size == current - startLine
    requires size < allowed && d[current] != '\n' ==>
               Cursors(d, allowed, startLine, lastSpace, current + 1, onlyWhiteSpace)
    requires AreRests(rest, d, start, allowed) && Remains(result, rest, startLine, whole)
    ensures current' < |d| && Cursors(d, allowed, startLine', lastSpace', current' + 1, onlyWhiteSpace')
    ensures size' == current' - startLine' && Remains(result', rest, startLine', whole)
    ensures startLine < startLine' || (startLine' == startLine && current' == current)
  {
    var previous', appendNewLine;
    current', previous', appendNewLine := SkipNewlines(d, current, previous);
    if appendNewLine || size >= allowed {
      result', current' := EndLine(result, d, start, allowed, startLine, lastSpace, current, current', previous',
                                   appendNewLine, rest, whole);
      startLine', lastSpace', size', onlyWhiteSpace' := current', current', 0, true;
    } else {
      result', startLine', lastSpace', size', onlyWhiteSpace' := result, startLine, lastSpace, size, onlyWhiteSpace;
    }
  }

  lemma StartOfWrap(whole: string)
    ensures "" + whole == whole
  {
  }

  method Wrap(d: string, start: nat, allowed: nat) returns (result: string)
    requires d != "" && d[|d| - 1] == ' ' && 0 < allowed
    ensures result == Wrapped(d, start, allowed, 0)
  {
    result := "";
    var current: nat, previous: nat, startLine: nat, lastSpace: nat := 0, 0, 0, 0;
    var size: nat := 0;
    var onlyWhiteSpace := true;
    ghost var rest := Rests(d, start, allowed);
    ghost var whole := rest[0];
    StartOfWrap(whole);
    while current != |d|
      invariant Cursors(d, allowed, startLine, lastSpace, current, onlyWhiteSpace)
      invariant previous == Before(current) && size == current - startLine
      invariant Remains(result, rest, startLine, whole)
      decreases |d| - startLine, |d| - current
    {
      ghost var lastSpace0, onlyWhiteSpace0 := lastSpace, onlyWhiteSpace;
      if Blank(d[previous]) {
        lastSpace := current;
      }
      if !Blank(d[current]) {
        onlyWhiteSpace := false;
      }
      CursorsAdvance(d, allowed, startLine, lastSpace0, current, onlyWhiteSpace0, lastSpace, onlyWhiteSpace);
      result, startLine, lastSpace, current, size, onlyWhiteSpace :=
        EndLineIfDue(result, d, start, allowed, startLine, lastSpace, current, previous, size, onlyWhiteSpace, rest, whole);
      previous := current;
      current := current + 1;
      size := size + 1;
    }
    Finish(d, start, allowed, startLine);
    if !onlyWhiteSpace {
      result := result + d[startLine..previous];
    }
  }

  lemma Finish(d: string, start: nat, allowed: nat, s: nat)
    requires s < |d| && 0 < allowed && |d| - s <= allowed && NewlineFrom(d, s) == |d| && d[|d| - 1] == ' '
    ensures Wrapped(d, start, allowed, s) == LastText(d, s)
  {
    assert EndOfLine(d, allowed, s) == LastLine;
  }

  // ---- main results about the wrapped text ------------------------------------------------

  function Texts(pieces: seq<Piece>): string {
    if pieces == [] then "" else pieces[0].text + Texts(pieces[1..])
  }

  predicate OneLine(s: string) {
    forall i :: 0 <= i < |s| ==> s[i] != '\n'
  }

  /** A line broken for its width ends in a blank, or is a full line of one word. */
  ghost predicate SoftLine(text: string, allowed: nat) {
    && 0 < |text| <= allowed && OneLine(text)
    && (Blank(text[|text| - 1]) || (|text| == allowed && forall i :: 0 <= i < |text| ==> !Blank(text[i])))
  }

  /** Any other line but the last ends in the description's own newlines. */
  ghost predicate HardLine(text: string, allowed: nat) {
    exists k :: 0 <= k < |text| && k <= allowed && OneLine(text[..k]) && forall i :: k <= i < |text| ==> text[i] == '\n'
  }

  ghost predicate Fits(p: Piece, allowed: nat) {
    if p.soft then SoftLine(p.text, allowed) else HardLine(p.text, allowed)
  }

  lemma NewlineFromIsFirst(d: string, i: nat)
    requires i <= |d|
    ensures forall k :: i <= k < NewlineFrom(d, i) ==> d[k] != '\n'
    decreases |d| - i
  {
    if i < |d| && d[i] != '\n' { NewlineFromIsFirst(d, i + 1); }
  }

  lemma AfterNewlinesSkips(d: string, i: nat)
    requires i <= |d|
    ensures forall k :: i <= k < AfterNewlines(d, i) ==> d[k] == '\n'
    decreases |d| - i
  {
    if i < |d| && d[i] == '\n' { AfterNewlinesSkips(d, i + 1); }
  }

  lemma AfterLastBlankIsLast(d: string, s: nat, c: nat)
    requires s <= c <= |d|
    ensures forall k :: AfterLastBlank(d, s, c) <= k < c ==> !Blank(d[k])
    decreases c
  {
    if c != s && !Blank(d[c - 1]) { AfterLastBlankIsLast(d, s, c - 1); }
  }

  lemma HardLineFits(d: string, allowed: nat, s: nat)
    requires s < |d| && 0 < allowed && d[|d| - 1] == ' ' && EndOfLine(d, allowed, s).Newlines?
    ensures HardLine(d[s..EndOfLine(d, allowed, s).next], allowed)
  {
    var newline, text := NewlineFrom(d, s), d[s..EndOfLine(d, allowed, s).next];
    NewlineFromIsFirst(d, s);
    AfterNewlinesSkips(d, newline);
    assert text[..newline - s] == d[s..newline];
    assert OneLine(text[..newline - s]);
  }

  lemma SoftLineFits(d: string, allowed: nat, s: nat)
    requires s < |d| && 0 < allowed && d[|d| - 1] == ' ' && EndOfLine(d, allowed, s).Width?
    ensures SoftLine(d[s..EndOfLine(d, allowed, s).next], allowed)
  {
    NewlineFromIsFirst(d, s);
    AfterLastBlankIsLast(d, s, s + allowed);
  }

  /** Every line fits, and the last line does too, appended space included. */
  lemma {:induction false} LinesFit(d: string, allowed: nat, s: nat)
    requires s < |d| && 0 < allowed && d[|d| - 1] == ' '
    ensures forall p <- Pieces(d, allowed, s) :: Fits(p, allowed)
    ensures var last := LastStart(d, allowed, s); |d| - last <= allowed && OneLine(d[last..])
    decreases |d| - s
  {
    match EndOfLine(d, allowed, s)
    case LastLine => NewlineFromIsFirst(d, s);
    case Newlines(next) => HardLineFits(d, allowed, s); LinesFit(d, allowed, next);
    case Width(next) => SoftLineFits(d, allowed, s); LinesFit(d, allowed, next);
  }

  lemma {:induction false} TextsThenLastLine(d: string, allowed: nat, s: nat)
    requires s < |d| && 0 < allowed && d[|d| - 1] == ' '
    ensures Texts(Pieces(d, allowed, s)) + d[LastStart(d, allowed, s)..] == d[s..]
    decreases |d| - s
  {
    var ending := EndOfLine(d, allowed, s);
    if !ending.LastLine? {
      var next := ending.next;
      TextsThenLastLine(d, allowed, next);
      TextsOfCons(Piece(d[s..next], ending.Width?), Pieces(d, allowed, next));
      Assoc(d[s..next], Texts(Pieces(d, allowed, next)), d[LastStart(d, allowed, next)..]);
      SplitAt(d, s, next);
    }
  }

  lemma TextsOfCons(p: Piece, ps: seq<Piece>)
    ensures Texts([p] + ps) == p.text + Texts(ps)
  {
    assert ([p] + ps)[1..] == ps;
  }

  lemma SplitAt(d: string, i: nat, j: nat)
    requires i <= j <= |d|
    ensures d[i..] == d[i..j] + d[j..]
  {
  }

  /** Without its breaks and indents, the output is the buffer up to a dropped tail of the last line. */
  lemma OnlyATailIsDropped(d: string, allowed: nat)
    requires d != "" && d[|d| - 1] == ' ' && 0 < allowed
    ensures var last := LastStart(d, allowed, 0);
            && Texts(Pieces(d, allowed, 0)) + d[last..] == d
            && LastText(d, last) <= d[last..]
            && (LastText(d, last) == d[last..|d| - 1] || AllBlank(d, FirstInspected(last), |d|))
  {
    TextsThenLastLine(d, allowed, 0);
    assert d[0..] == d;
  }

  /** Words move to the next line only when they do not fit: no later blank would have been in reach. */
  lemma BreaksAsLateAsPossible(d: string, allowed: nat, s: nat)
    requires s < |d| && 0 < allowed && d[|d| - 1] == ' ' && EndOfLine(d, allowed, s).Width?
    ensures var next := EndOfLine(d, allowed, s).next;
            && s + allowed < |d| && next <= s + allowed
            && (Blank(d[next - 1]) || next == s + allowed)
            && forall k :: next <= k < s + allowed ==> !Blank(d[k])
  {
    AfterLastBlankIsLast(d, s, s + allowed);
  }

  // ---- what the layout has to be ----------------------------------------------------------

  /** Ends in newlines: there is one within the width, and the text goes up to the last of them. */
  ghost predicate BreaksHard(d: string, s: nat, text: string, allowed: nat) {
    exists k: nat :: HardAt(d, s, text, allowed, k)
  }

  predicate HardAt(d: string, s: nat, text: string, allowed: nat, k: nat) {
    && k < |text| && k <= allowed && OneLine(text[..k]) && (forall i :: k <= i < |text| ==> text[i] == '\n')
    && s + |text| < |d| && d[s + |text|] != '\n'
  }

  /** Ends for the width: behind the last blank that fits, or, without any, in the middle of a word. */
  predicate BreaksSoft(d: string, s: nat, text: string, allowed: nat) {
    && 0 < |text| <= allowed && s + allowed < |d|
    && (forall i :: s <= i <= s + allowed ==> d[i] != '\n')
    && (forall i :: s + |text| <= i < s + allowed ==> d[i] != ' ' && d[i] != '\t')
    && (text[|text| - 1] == ' ' || text[|text| - 1] == '\t' ||
        (|text| == allowed && forall i :: 0 <= i < allowed ==> text[i] != ' ' && text[i] != '\t'))
  }

  /** The text from `s` on is cut into these lines; what is left for the last one fits and has no newline. */
  ghost predicate LaidOut(d: string, s: nat, pieces: seq<Piece>, last: string, allowed: nat)
    decreases |pieces|
  {
    s <= |d| &&
    if pieces == [] then last == d[s..] && last != "" && |last| <= allowed && OneLine(last)
    else
      var text := pieces[0].text;
      && text <= d[s..]
      && (if pieces[0].soft then BreaksSoft(d, s, text, allowed) else BreaksHard(d, s, text, allowed))
      && LaidOut(d, s + |text|, pieces[1..], last, allowed)
  }

  lemma TextAt(d: string, s: nat, text: string)
    requires s <= |d| && text <= d[s..]
    ensures s + |text| <= |d| && text == d[s..s + |text|] && forall i :: 0 <= i < |text| ==> text[i] == d[s + i]
  {
  }

  lemma {:induction false} FirstNewlineIs(d: string, i: nat, k: nat)
    requires i <= k <= |d| && (forall j :: i <= j < k ==> d[j] != '\n') && (k < |d| ==> d[k] == '\n')
    ensures NewlineFrom(d, i) == k
    decreases k - i
  {
    if i < k { FirstNewlineIs(d, i + 1, k); }
  }

  lemma {:induction false} LastBlankIs(d: string, s: nat, c: nat, r: nat)
    requires s <= r <= c <= |d| && (forall k :: r <= k < c ==> !Blank(d[k])) && (r == s || Blank(d[r - 1]))
    ensures AfterLastBlank(d, s, c) == r
    decreases c
  {
    if r < c { LastBlankIs(d, s, c - 1, r); }
  }

  lemma HardIsNewlines(d: string, s: nat, text: string, allowed: nat)
    requires s < |d| && 0 < allowed && d[|d| - 1] == ' ' && text <= d[s..] && BreaksHard(d, s, text, allowed)
    ensures EndOfLine(d, allowed, s) == Newlines(s + |text|)
  {
    var k: nat :| HardAt(d, s, text, allowed, k);
    TextAt(d, s, text);
    assert forall j :: s <= j < s + k ==> d[j] == text[..k][j - s];
    FirstNewlineIs(d, s, s + k);
    EndOfNewlines(d, s + k, s + |text|);
  }

  lemma SoftIsWidth(d: string, s: nat, text: string, allowed: nat)
    requires s < |d| && 0 < allowed && d[|d| - 1] == ' ' && text <= d[s..] && BreaksSoft(d, s, text, allowed)
    ensures EndOfLine(d, allowed, s) == Width(s + |text|)
  {
    TextAt(d, s, text);
    NewlineBeyond(d, s, s + allowed);
    if text[|text| - 1] == ' ' || text[|text| - 1] == '\t' {
      LastBlankIs(d, s, s + allowed, s + |text|);
    } else {
      LastBlankIs(d, s, s + allowed, s);
    }
  }

  lemma NewlineBeyond(d: string, s: nat, k: nat)
    requires s <= k < |d| && forall i :: s <= i <= k ==> d[i] != '\n'
    ensures k < NewlineFrom(d, s)
    decreases k - s
  {
    if s < k { NewlineBeyond(d, s + 1, k); }
  }

  lemma LastIsLast(d: string, s: nat, allowed: nat)
    requires s < |d| && 0 < allowed && d[|d| - 1] == ' ' && |d| - s <= allowed && OneLine(d[s..])
    ensures EndOfLine(d, allowed, s) == LastLine
  {
    assert forall i :: s <= i < |d| ==> d[i] == d[s..][i - s];
    FirstNewlineIs(d, s, |d|);
  }

  /** The lines are those of the reference: there is only one way to lay the text out. */
  lemma {:induction false} LayoutIsUnique(d: string, s: nat, pieces: seq<Piece>, last: string, allowed: nat)
    requires s < |d| && 0 < allowed && d[|d| - 1] == ' ' && LaidOut(d, s, pieces, last, allowed)
    ensures pieces == Pieces(d, allowed, s) && last == d[LastStart(d, allowed, s)..]
    decreases |pieces|
  {
    if pieces == [] {
      LastIsLast(d, s, allowed);
    } else {
      var next := HeadIsReference(d, s, pieces, last, allowed);
      PiecesStep(d, s, next, pieces[0].soft, allowed);
      LayoutIsUnique(d, next, pieces[1..], last, allowed);
    }
  }

  lemma HeadIsReference(d: string, s: nat, pieces: seq<Piece>, last: string, allowed: nat) returns (next: nat)
    requires s < |d| && 0 < allowed && d[|d| - 1] == ' ' && pieces != [] && LaidOut(d, s, pieces, last, allowed)
    ensures EndOfLine(d, allowed, s) == if pieces[0].soft then Width(next) else Newlines(next)
    ensures pieces == [Piece(d[s..next], pieces[0].soft)] + pieces[1..] && LaidOut(d, next, pieces[1..], last, allowed)
  {
    var text := pieces[0].text;
    next := s + |text|;
    TextAt(d, s, text);
    if pieces[0].soft { SoftIsWidth(d, s, text, allowed); } else { HardIsNewlines(d, s, text, allowed); }
  }

  lemma PiecesStep(d: string, s: nat, next: nat, soft: bool, allowed: nat)
    requires s < |d| && 0 < allowed && d[|d| - 1] == ' '
    requires EndOfLine(d, allowed, s) == if soft then Width(next) else Newlines(next)
    ensures next < |d| && Pieces(d, allowed, s) == [Piece(d[s..next], soft)] + Pieces(d, allowed, next)
    ensures LastStart(d, allowed, s) == LastStart(d, allowed, next)
  {
  }

  lemma NewlinesBreakHard(d: string, s: nat, allowed: nat, next: nat)
    requires s < |d| && 0 < allowed && d[|d| - 1] == ' ' && EndOfLine(d, allowed, s) == Newlines(next)
    ensures BreaksHard(d, s, d[s..next], allowed)
  {
    var newline, text := NewlineFrom(d, s), d[s..next];
    NewlineFromIsFirst(d, s);
    AfterNewlinesSkips(d, newline);
    assert text[..newline - s] == d[s..newline];
    assert HardAt(d, s, text, allowed, newline - s);
  }

  lemma WidthBreaksSoft(d: string, s: nat, allowed: nat, next: nat)
    requires s < |d| && 0 < allowed && d[|d| - 1] == ' ' && EndOfLine(d, allowed, s) == Width(next)
    ensures BreaksSoft(d, s, d[s..next], allowed)
  {
    NewlineFromIsFirst(d, s);
    AfterLastBlankIsLast(d, s, s + allowed);
  }

  /** And the reference is one. */
  lemma {:induction false} ReferenceIsLaidOut(d: string, s: nat, allowed: nat)
    requires s < |d| && 0 < allowed && d[|d| - 1] == ' '
    ensures LaidOut(d, s, Pieces(d, allowed, s), d[LastStart(d, allowed, s)..], allowed)
    decreases |d| - s
  {
    match EndOfLine(d, allowed, s)
    case LastLine =>
      NewlineFromIsFirst(d, s);
    case Newlines(next) =>
      NewlinesBreakHard(d, s, allowed, next);
      ReferenceIsLaidOut(d, next, allowed);
      LaidOutCons(d, s, next, false, Pieces(d, allowed, next), d[LastStart(d, allowed, s)..], allowed);
    case Width(next) =>
      WidthBreaksSoft(d, s, allowed, next);
      ReferenceIsLaidOut(d, next, allowed);
      LaidOutCons(d, s, next, true, Pieces(d, allowed, next), d[LastStart(d, allowed, s)..], allowed);
  }

  lemma LaidOutCons(d: string, s: nat, next: nat, soft: bool, rest: seq<Piece>, last: string, allowed: nat)
    requires s <= next <= |d| && LaidOut(d, next, rest, last, allowed)
    requires if soft then BreaksSoft(d, s, d[s..next], allowed) else BreaksHard(d, s, d[s..next], allowed)
    ensures LaidOut(d, s, [Piece(d[s..next], soft)] + rest, last, allowed)
  {
    var pieces := [Piece(d[s..next], soft)] + rest;
    assert pieces[1..] == rest && d[s..next] <= d[s..];
  }

  /** The lines one below the other, each later one behind the indent. */
  function Flow(pieces: seq<Piece>, indent: string): string {
    if pieces == [] then ""
    else pieces[0].text + (if pieces[0].soft then "\n" else "") + indent + Flow(pieces[1..], indent)
  }

  /**
   What is printed of the last line, less the appended space: nothing if it is blank, where the first
   character of a later line does not count.
   */
  predicate PrintsLast(last: string, first: bool, printed: string) {
    if forall i :: (if first then 0 else 1) <= i < |last| ==> last[i] == ' ' || last[i] == '\t' then printed == ""
    else printed == last[..|last| - 1]
  }

  lemma {:induction false} AllBlankMeans(d: string, i: nat, j: nat)
    requires j <= |d|
    ensures AllBlank(d, i, j) <==> forall k :: i <= k < j ==> d[k] == ' ' || d[k] == '\t'
  {
    if i < j { AllBlankMeans(d, i, j - 1); }
  }

  lemma LastTextIsPrinted(d: string, s: nat)
    requires s < |d|
    ensures PrintsLast(d[s..], s == 0, LastText(d, s))
  {
    AllBlankMeans(d, FirstInspected(s), |d|);
    assert d[s..][..|d| - s - 1] == d[s..|d| - 1];
    assert forall k :: FirstInspected(s) <= k < |d| ==> d[k] == d[s..][k - s];
  }

  lemma {:induction false} RenderFlows(pieces: seq<Piece>, start: nat, indent: string)
    requires |indent| == start && forall i :: 0 <= i < start ==> indent[i] == ' '
    ensures Render(pieces, start) == Flow(pieces, indent)
  {
    if pieces != [] {
      RenderFlows(pieces[1..], start, indent);
      LineFlows(pieces[0].text, pieces[0].soft, start, indent);
    }
  }

  lemma LineFlows(text: string, soft: bool, start: nat, indent: string)
    requires |indent| == start && forall i :: 0 <= i < start ==> indent[i] == ' '
    ensures WithLine("", text, soft, start) == text + (if soft then "\n" else "") + indent
  {
    assert indent == Spaces(start);
    assert text + "" == text;
  }

  lemma {:induction false} LaterStart(d: string, allowed: nat, s: nat)
    requires s < |d| && 0 < allowed && d[|d| - 1] == ' '
    ensures LastStart(d, allowed, s) == s <==> Pieces(d, allowed, s) == []
  {
  }

  /** What the loop prints, in these terms. */
  lemma WrappedIsLaidOut(d: string, start: nat, allowed: nat, indent: string) returns (pieces: seq<Piece>, last: string,
                                                                                     printed: string)
    requires d != "" && 0 < allowed && d[|d| - 1] == ' '
    requires |indent| == start && forall i :: 0 <= i < start ==> indent[i] == ' '
    ensures LaidOut(d, 0, pieces, last, allowed) && PrintsLast(last, pieces == [], printed)
    ensures Wrapped(d, start, allowed, 0) == Flow(pieces, indent) + printed
  {
    pieces, last := Pieces(d, allowed, 0), d[LastStart(d, allowed, 0)..];
    printed := LastText(d, LastStart(d, allowed, 0));
    ReferenceIsLaidOut(d, 0, allowed);
    LastTextIsPrinted(d, LastStart(d, allowed, 0));
    LaterStart(d, allowed, 0);
    RenderFlows(pieces, start, indent);
    WrappedIsRendered(d, start, allowed, 0);
  }

  // ---- format_description -----------------------------------------------------------------

  datatype HelpOption = HelpOption(desc: string, hasDefault: bool, isBoolean: bool, defaultValue: string)

  function WithDefault(o: HelpOption): string {
    if o.hasDefault && (!o.isBoolean || o.defaultValue != "false") then
      o.desc + if o.defaultValue != "" then " (default: " + o.defaultValue + ")" else " (default: \"\")"
    else o.desc
  }

  function Buffer(o: HelpOption, tabExpansion: bool): string {
    (if tabExpansion then Expanded(WithDefault(o)) else WithDefault(o)) + " "
  }

  /** The description, and its default value unless that is a switch being off. */
  predicate Describes(o: HelpOption, body: string) {
    if !o.hasDefault || (o.isBoolean && o.defaultValue == "false") then body == o.desc
    else if o.defaultValue == "" then body == o.desc + " (default: \"\")"
    else body == o.desc + " (default: " + o.defaultValue + ")"
  }

  /** The text to lay out: the described option, tabs expanded if that is asked for, and a space. */
  ghost predicate ToLayOut(o: HelpOption, tabExpansion: bool, d: string) {
    exists body, e :: Describes(o, body) && d == e + " " && if tabExpansion then Expands(body, e) else e == body
  }

  ghost predicate Expands(s: string, e: string) {
    exists ends :: ExpandsTo(s, e, ends)
  }

  lemma BufferIsToLayOut(o: HelpOption, tabExpansion: bool)
    ensures ToLayOut(o, tabExpansion, Buffer(o, tabExpansion))
  {
    var body := WithDefault(o);
    var e := if tabExpansion then Expanded(body) else body;
    assert o.desc + (" (default: " + o.defaultValue + ")") == o.desc + " (default: " + o.defaultValue + ")";
    assert Describes(o, body);
    if tabExpansion {
      var ends := ExpandedExpands(body);
      assert Expands(body, e);
    }
    assert Buffer(o, tabExpansion) == e + " ";
  }

  /** The ghost results: the text laid out, its lines but the last, the last line, and what is printed of it. */
  method FormatDescription(o: HelpOption, start: nat, allowed: nat, tabExpansion: bool)
    returns (result: string, ghost d: string, ghost pieces: seq<Piece>, ghost last: string, ghost printed: string)
    requires 0 < allowed
    ensures ToLayOut(o, tabExpansion, d)
    ensures LaidOut(d, 0, pieces, last, allowed) && PrintsLast(last, pieces == [], printed)
    ensures result == Flow(pieces, seq(start, _ => ' ')) + printed
    ensures result == Wrapped(Buffer(o, tabExpansion), start, allowed, 0)
  {
    var desc := o.desc;
    if o.hasDefault && (!o.isBoolean || o.defaultValue != "false") {
      if o.defaultValue != "" {
        desc := desc + (" (default: " + o.defaultValue + ")");
      } else {
        desc := desc + " (default: \"\")";
      }
    }
    if tabExpansion {
      desc := ExpandTabs(desc);
    }
    desc := desc + " ";
    result := Wrap(desc, start, allowed);
    d := desc;
    BufferIsToLayOut(o, tabExpansion);
    pieces, last, printed := WrappedIsLaidOut(d, start, allowed, seq(start, _ => ' '));
  }

  // ---- what is lost ------------------------------------------------------------------------

  function Visible(s: string): string {
    if s == "" then "" else (if Blank(s[0]) then "" else [s[0]]) + Visible(s[1..])
  }

  lemma VisibleConcat(a: string, b: string)
    ensures Visible(a + b) == Visible(a) + Visible(b)
  {
    if a == "" {
      assert a + b == b;
    } else {
      assert (a + b)[1..] == a[1..] + b;
    }
  }

  lemma {:induction false} VisibleOfBlanks(d: string, i: nat, j: nat)
    requires i <= j <= |d|
    ensures AllBlank(d, i, j) <==> Visible(d[i..j]) == ""
    decreases j - i
  {
    if i < j {
      var before, c := d[i..j - 1], d[j - 1];
      assert d[i..j] == before + [c];
      VisibleConcat(before, [c]);
      VisibleOfBlanks(d, i, j - 1);
    }
  }

  /** The last line is a later line whose first character is its only visible one. */
  predicate LoneLastCharacter(d: string, allowed: nat)
    requires d != "" && d[|d| - 1] == ' ' && 0 < allowed
  {
    var last := LastStart(d, allowed, 0);
    0 < last && !Blank(d[last]) && AllBlank(d, last + 1, |d|)
  }

  /**
   Every visible character of the description is printed, in order, exactly when the last line is
   not such a line; the loop resets its white-space flag after looking at a line's first character.
   */
  lemma {:induction false} VisibleTextSurvivesIff(d: string, allowed: nat)
    requires d != "" && d[|d| - 1] == ' ' && 0 < allowed
    ensures var last := LastStart(d, allowed, 0);
            Visible(Texts(Pieces(d, allowed, 0)) + LastText(d, last)) == Visible(d) <==>
            !LoneLastCharacter(d, allowed)
  {
    var last := LastStart(d, allowed, 0);
    var texts := Texts(Pieces(d, allowed, 0));
    OnlyATailIsDropped(d, allowed);
    assert d == texts + d[last..];
    VisibleConcat(texts, d[last..]);
    VisibleConcat(texts, LastText(d, last));
    LastLineLoss(d, last);
  }

  lemma LastLineLoss(d: string, last: nat)
    requires last < |d| && d[|d| - 1] == ' '
    ensures Visible(LastText(d, last)) == Visible(d[last..]) <==>
            !(0 < last && !Blank(d[last]) && AllBlank(d, last + 1, |d|))
  {
    var from := if last == 0 then 0 else last + 1;
    assert d[from..] == d[from..|d|];
    VisibleOfBlanks(d, from, |d|);
    if AllBlank(d, from, |d|) {
      if 0 < last { assert d[last..][1..] == d[from..]; }
    } else {
      assert d[last..] == d[last..|d| - 1] + [' '];
      VisibleConcat(d[last..|d| - 1], [' ']);
    }
  }

  /** A description of the reported kind: at width 10 its final word is never printed. */
  lemma LastWordCanVanish(start: nat)
    ensures var o := HelpOption("aaaaaaaaa b", false, false, "");
            Wrapped(Buffer(o, false), start, 10, 0) == "aaaaaaaaa \n" + Spaces(start)
  {
    var d := Buffer(HelpOption("aaaaaaaaa b", false, false, ""), false);
    assert d == "aaaaaaaaa b ";
    NewlineFromIsFirst(d, 0);
    assert NewlineFrom(d, 0) == |d| by { assert forall k :: 0 <= k < |d| ==> d[k] != '\n'; }
    assert AfterLastBlank(d, 0, 10) == 10;
    assert EndOfLine(d, 10, 0) == Width(10);
    NewlineFromIsFirst(d, 10);
    assert NewlineFrom(d, 10) == |d| by { assert forall k :: 0 <= k < |d| ==> d[k] != '\n'; }
    assert EndOfLine(d, 10, 10) == LastLine;
    assert AllBlank(d, 11, 12);
    assert Wrapped(d, start, 10, 10) == "";
    assert d[0..10] == "aaaaaaaaa ";
  }
}
