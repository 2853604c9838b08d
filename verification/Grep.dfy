/** grep.c: the backtracking matcher of The Practice of Programming, chapter 9, against a
    declarative reading of the pattern as a sequence of items. */
module Grep {

  datatype Item = One(c: char) | Star(c: char) | End

  /** How the matcher reads a pattern; `$` is an anchor only at the very end and unstarred. */
  function Items(re: string): seq<Item> {
    if re == [] then []
    else if |re| > 1 && re[1] == '*' then [Star(re[0])] + Items(re[2..])
    else if re == "$" then [End]
    else [One(re[0])] + Items(re[1..])
  }

  predicate Accepts(c: char, x: char) {
    c == '.' || c == x
  }

  ghost predicate Run(c: char, w: string) {
    forall i :: 0 <= i < |w| ==> Accepts(c, w[i])
  }

  /** `w` is in the language of `items` where `rest` is the text that follows it. */
  ghost predicate In(items: seq<Item>, w: string, rest: string)
    decreases |items|
  {
    if items == [] then w == []
    else match items[0]
      case One(c) => w != [] && Accepts(c, w[0]) && In(items[1..], w[1..], rest)
      case Star(c) => exists k :: 0 <= k <= |w| && Run(c, w[..k]) && In(items[1..], w[k..], rest)
      case End => w == [] && rest == [] && In(items[1..], w, rest)
  }

  /** text[i..j] is in the language. */
  ghost predicate Matches(re: string, text: string, i: nat, j: nat)
    requires i <= j <= |text|
  {
    In(Items(re), text[i..j], text[j..])
  }

  ghost predicate MatchesAt(re: string, text: string, i: nat)
    requires i <= |text|
  {
    exists j :: i <= j <= |text| && Matches(re, text, i, j)
  }

  lemma Shift(re: string, text: string, i: nat, j: nat)
    requires i <= j <= |text|
    ensures Matches(re, text, i, j) <==> Matches(re, text[i..], 0, j - i)
  {
    assert text[i..][0..j - i] == text[i..j];
    assert text[i..][j - i..] == text[j..];
  }

  lemma ShiftAt(re: string, text: string, i: nat)
    requires i <= |text|
    ensures MatchesAt(re, text, i) <==> MatchesAt(re, text[i..], 0)
  {
    forall j | i <= j <= |text|
      ensures Matches(re, text, i, j) <==> Matches(re, text[i..], 0, j - i)
    {
      Shift(re, text, i, j);
    }
    if MatchesAt(re, text[i..], 0) {
      var j :| 0 <= j <= |text[i..]| && Matches(re, text[i..], 0, j);
      assert Matches(re, text, i, i + j);
    }
  }

  lemma EmptyPattern(text: string)
    ensures MatchesAt("", text, 0)
  {
    assert Matches("", text, 0, 0);
  }

  lemma OneStep(re: string, text: string)
    requires re != [] && !(|re| > 1 && re[1] == '*') && re != "$"
    ensures MatchesAt(re, text, 0) <==>
            text != [] && Accepts(re[0], text[0]) && MatchesAt(re[1..], text[1..], 0)
  {
    assert Items(re)[1..] == Items(re[1..]);
    if MatchesAt(re, text, 0) {
      var j :| 0 <= j <= |text| && Matches(re, text, 0, j);
      assert text[0..j][1..] == text[1..][0..j - 1] && text[j..] == text[1..][j - 1..];
      assert Matches(re[1..], text[1..], 0, j - 1);
    }
    if text != [] && Accepts(re[0], text[0]) && MatchesAt(re[1..], text[1..], 0) {
      var j :| 0 <= j <= |text[1..]| && Matches(re[1..], text[1..], 0, j);
      assert text[0..j + 1][1..] == text[1..][0..j] && text[j + 1..] == text[1..][j..];
      assert Matches(re, text, 0, j + 1);
    }
  }

  lemma Anchor(text: string)
    ensures MatchesAt("$", text, 0) <==> text == []
  {
    assert Items("$") == [End] && [End][1..] == [];
    if text == [] {
      assert Matches("$", text, 0, 0);
    }
  }

  /** c* then re: some run of accepted characters, then re. */
  lemma StarStep(re: string, text: string)
    requires |re| > 1 && re[1] == '*'
    ensures MatchesAt(re, text, 0) <==>
            exists k :: 0 <= k <= |text| && Run(re[0], text[..k]) && MatchesAt(re[2..], text, k)
  {
    assert Items(re)[1..] == Items(re[2..]);
    if MatchesAt(re, text, 0) {
      var j :| 0 <= j <= |text| && Matches(re, text, 0, j);
      var w := text[0..j];
      var k :| 0 <= k <= |w| && Run(re[0], w[..k]) && In(Items(re[2..]), w[k..], text[j..]);
      assert w[..k] == text[..k] && w[k..] == text[k..j];
      assert Matches(re[2..], text, k, j);
    }
    if k :| 0 <= k <= |text| && Run(re[0], text[..k]) && MatchesAt(re[2..], text, k) {
      var j :| k <= j <= |text| && Matches(re[2..], text, k, j);
      assert text[0..j][..k] == text[..k] && text[0..j][k..] == text[k..j];
      assert Matches(re, text, 0, j);
    }
  }

  /** grep.c:71-81: true iff some substring of the text is in the language of the pattern,
      or some prefix when the pattern starts with ^. */
  method Match(re: string, text: string) returns (found: bool)
    ensures found <==>
            if re != [] && re[0] == '^' then MatchesAt(re[1..], text, 0)
            else exists i :: 0 <= i <= |text| && MatchesAt(re, text, i)
  {
    if re != [] && re[0] == '^' {
      found := MatchHere(re[1..], text);
      return;
    }
    var i := 0;
    while true
      invariant 0 <= i <= |text|
      invariant forall k :: 0 <= k < i ==> !MatchesAt(re, text, k)
      decreases |text| - i
    {
      ShiftAt(re, text, i);
      var here := MatchHere(re, text[i..]);
      if here {
        return true;
      }
      if i == |text| {
        return false;
      }
      i := i + 1;
    }
  }

  /** grep.c:84-95. */
  method MatchHere(re: string, text: string) returns (found: bool)
    ensures found <==> MatchesAt(re, text, 0)
    decreases |re|, |text|, 0
  {
    if re == [] {
      EmptyPattern(text);
      return true;
    }
    if |re| > 1 && re[1] == '*' {
      StarStep(re, text);
      found := MatchStar(re[0], re[2..], text);
      return;
    }
    if re[0] == '$' && |re| == 1 {
      Anchor(text);
      return text == [];
    }
    OneStep(re, text);
    if text != [] && (re[0] == '.' || re[0] == text[0]) {
      found := MatchHere(re[1..], text[1..]);
      return;
    }
    return false;
  }

  /** grep.c:98-105. */
  method MatchStar(c: char, re: string, text: string) returns (found: bool)
    ensures found <==> exists k :: 0 <= k <= |text| && Run(c, text[..k]) && MatchesAt(re, text, k)
    decreases |re|, |text|, 1
  {
    var i := 0;
    while true
      invariant 0 <= i <= |text| && Run(c, text[..i])
      invariant forall k :: 0 <= k < i ==> !MatchesAt(re, text, k)
      decreases |text| - i
    {
      ShiftAt(re, text, i);
      var here := MatchHere(re, text[i..]);
      if here {
        return true;
      }
      if i == |text| || !(text[i] == c || c == '.') {
        forall k | i < k <= |text|
          ensures !Run(c, text[..k])
        {
          assert !Accepts(c, text[..k][i]);
        }
        return false;
      }
      i := i + 1;
    }
  }
}
