/**
 How an INSERT statement ends: a placeholder left there is told apart from any value.
 */
module StatementEnds {
  import opened Text
  import opened Placeholders
  import opened Rescanning
  import opened Templates

  /** An INSERT with values ends in its last value, with a space or parenthesis before it. */
  lemma InsertTextEnd(table: string, names: seq<string>, values: seq<string>) returns (y: string)
    requires values != []
    ensures InsertText(table, names, values) == y + values[|values| - 1] + ")"
    ensures y != "" && y[|y| - 1] != '$' && !IsDigit(y[|y| - 1])
  {
    var n, head := |values| - 1, InsertHead(table, names);
    var init, last := values[..n], values[n];
    InsertHeadEnd(table, names);
    assert values == init + [last];
    JoinSnoc(init, last);
    if init == [] {
      y := head;
    } else {
      y := head + Join(init) + Comma;
      RegroupLast(head, Join(init), last);
    }
    assert InsertText(table, names, values) == head + Join(values) + ")";
  }

  lemma InsertHeadEnd(table: string, names: seq<string>)
    ensures var head := InsertHead(table, names); head != "" && head[|head| - 1] == '('
  {
  }

  lemma RegroupLast(head: string, list: string, last: string)
    ensures head + (list + Comma + last) + ")" == (head + list + Comma) + last + ")"
    ensures (head + list + Comma)[|head + list| + 1] == ' '
  {
  }

  /** A numbered placeholder at the end is not a value at the end. */
  lemma EndsApart(x: string, n: nat, y: string, own: string, z: string)
    requires own != "" && Sealed(own) && y != "" && y[|y| - 1] != '$' && !IsDigit(y[|y| - 1])
    ensures x + Placeholder(n) + z != y + own + z
  {
    var s, t, pat := x + Placeholder(n), y + own, Placeholder(n);
    PlaceholderChars(n);
    assert forall i :: 0 <= i < |pat| ==> s[|x| + i] == pat[i];
    assert s[|s| - 1] == s[|x| + (|pat| - 1)];
    assert t[|t| - 1] == own[|own| - 1] && t[|y| - 1] == y[|y| - 1];
    assert forall i :: |y| <= i < |t| ==> t[i] == own[i - |y|];
    if s + z == t + z {
      SameFront(s, t, z);
      TailsApart(s, |x|, |y|, own);
    }
  }

  lemma TailsApart(s: string, from: nat, own: nat, text: string)
    requires from + 1 < |s| && s[from] == '$' && (forall i :: from < i < |s| ==> IsDigit(s[i]))
    requires 0 < own < |s| && s[own - 1] != '$' && !IsDigit(s[own - 1])
    requires s[own..] == text
    ensures !Sealed(text)
  {
    assert s[|s| - 1] == text[|text| - 1];
    assert own <= from;
    assert text[from - own] == s[from];
  }

  lemma SameFront(s: string, t: string, z: string)
    requires s + z == t + z
    ensures s == t
  {
    assert s == (s + z)[..|s|] && t == (t + z)[..|t|];
  }
}
