/** ">>" does not append (sh.c:445-450): in any input, ">>" and "> " are the same. */
module ShAppend {
  import opened ShSpec

  /** A ">>" token starts at k. */
  predicate Appends(s: string, k: nat) {
    k + 1 < |s| && s[k] == '>' && s[k + 1] == '>' && (k > 0 ==> s[k - 1] != '>')
  }

  /** The input with that ">>" as "> ". */
  function Single(s: string, k: nat): (u: string)
    requires Appends(s, k)
    ensures |u| == |s| && forall i :: 0 <= i < |s| && i != k + 1 ==> u[i] == s[i]
  {
    s[k + 1 := ' ']
  }

  // ----------------------------------------------------------------- tokens

  lemma {:induction false} SkipSame(s: string, k: nat, i: nat)
    requires Appends(s, k) && i <= |s| && i != k + 1
    ensures Skip(Single(s, k), i) == Skip(s, i) != k + 1
    decreases |s| - i
  {
    if i < |s| && Space(s[i]) {
      SkipSame(s, k, i + 1);
    }
  }

  lemma {:induction false} WordEndSame(s: string, k: nat, i: nat)
    requires Appends(s, k) && i <= |s| && i != k + 1
    ensures WordEnd(Single(s, k), i) == WordEnd(s, i) != k + 1
    decreases |s| - i
  {
    if i < |s| && InWord(s[i]) {
      WordEndSame(s, k, i + 1);
    }
  }

  /** Every token is where it was, and only ">>" has become ">". */
  lemma TokenSame(s: string, k: nat, i: nat)
    requires Appends(s, k) && i <= |s| && i != k + 1
    ensures var t, v := GetToken(s, i), GetToken(Single(s, k), i);
            && v.lo == t.lo && v.next == t.next != k + 1
            && (v == t || (t.kind == '+' && v.kind == '>'))
  {
    hide Skip, WordEnd;
    var u, lo := Single(s, k), Skip(s, i);
    SkipSame(s, k, i);
    if lo == k {
      SkipSame(s, k, k + 2);
      BlankSkipped(u, k + 1);
    } else if At(s, lo) == '>' && At(s, lo + 1) == '>' {
      SkipSame(s, k, lo + 2);
    } else if At(s, lo) != NUL && Symbol(At(s, lo)) {
      SkipSame(s, k, lo + 1);
    } else {
      WordEndSame(s, k, lo);
      SkipSame(s, k, WordEnd(s, lo));
    }
  }

  lemma BlankSkipped(u: string, i: nat)
    requires i < |u| && Space(u[i])
    ensures Skip(u, i) == Skip(u, i + 1)
  {
  }

  lemma LooksSame(s: string, k: nat, i: nat, toks: string)
    requires Appends(s, k) && i <= |s| && i != k + 1
    ensures Looks(Single(s, k), i, toks) == Looks(s, i, toks)
  {
    SkipSame(s, k, i);
  }

  /** The token that a look ahead has found. */
  lemma NextSame(s: string, k: nat, i: nat)
    requires Appends(s, k) && i <= |s| && i != k + 1
    ensures var t, v := GetToken(s, Skip(s, i)), GetToken(Single(s, k), Skip(Single(s, k), i));
            && v.lo == t.lo && v.next == t.next != k + 1
            && (v == t || (t.kind == '+' && v.kind == '>'))
  {
    hide Skip, GetToken;
    SkipSame(s, k, i);
    TokenSame(s, k, Skip(s, i));
  }

  // ---------------------------------------------------------------- parsing

  /** The same result, which does not end inside the ">>". */
  ghost predicate Same<T(!new)>(k: nat, r: Parsed<T>, q: Parsed<T>) {
    q == r && (r.Got? ==> r.pos != k + 1)
  }

  lemma {:induction false} RedirsSame(s: string, k: nat, i: nat, rs: seq<Redir>)
    requires Appends(s, k) && i <= |s| && i != k + 1
    ensures Same(k, ParseRedirs(s, i, rs), ParseRedirs(Single(s, k), i, rs))
    decreases |s| - i
  {
    hide GetToken, Skip, Looks;
    LooksSame(s, k, i, "<>");
    SkipSame(s, k, i);
    if Looks(s, i, "<>") {
      NextSame(s, k, i);
      var t := GetToken(s, Skip(s, i));
      TokenSame(s, k, t.next);
      var f := GetToken(s, t.next);
      if f.kind == 'a' {
        RedirsSame(s, k, f.next, rs + [Redir(if t.kind == '<' then Input else Output, Span(f.lo, f.hi))]);
      }
    }
  }

  lemma {:induction false} ArgsSame(s: string, k: nat, i: nat, argv: seq<Span>, rs: seq<Redir>)
    requires Appends(s, k) && i <= |s| && i != k + 1
    ensures Same(k, ParseArgs(s, i, argv, rs), ParseArgs(Single(s, k), i, argv, rs))
    decreases |s| - i
  {
    hide GetToken, Skip, Looks, ParseRedirs, Wrap;
    LooksSame(s, k, i, "|)&;");
    SkipSame(s, k, i);
    NextSame(s, k, i);
    var t := GetToken(s, Skip(s, i));
    if !Looks(s, i, "|)&;") && t.kind == 'a' && |argv| + 1 < MAXARGS {
      RedirsSame(s, k, t.next, rs);
      var d := ParseRedirs(s, t.next, rs);
      if d.Got? {
        ArgsSame(s, k, d.pos, argv + [Span(t.lo, t.hi)], d.value);
      }
    }
  }

  lemma {:induction false} ExecSame(s: string, k: nat, i: nat)
    requires Appends(s, k) && i <= |s| && i != k + 1
    ensures Same(k, ParseExec(s, i), ParseExec(Single(s, k), i))
    decreases |s| - i, 1
  {
    hide Skip, Looks, ParseRedirs, ParseArgs, ParseBlock;
    LooksSame(s, k, i, "(");
    SkipSame(s, k, i);
    var j := Skip(s, i);
    if Looks(s, i, "(") {
      LooksAfter(s, i, "(");
      BlockSame(s, k, j);
    } else {
      RedirsSame(s, k, j, []);
      var d := ParseRedirs(s, j, []);
      if d.Got? {
        ArgsSame(s, k, d.pos, [], d.value);
      }
    }
  }

  lemma {:induction false} BlockSame(s: string, k: nat, i: nat)
    requires Appends(s, k) && i <= |s| && i != k + 1 && Looks(s, i, "(")
    ensures Looks(Single(s, k), i, "(") && Same(k, ParseBlock(s, i), ParseBlock(Single(s, k), i))
    decreases |s| - i, 0
  {
    hide GetToken, Skip, Looks, ParseRedirs, ParseLine, Wrap;
    LooksSame(s, k, i, "(");
    SymbolAhead(s, i, "(");
    NextSame(s, k, i);
    var open := GetToken(s, Skip(s, i)).next;
    LineSame(s, k, open);
    var line := ParseLine(s, open);
    if line.Got? {
      LooksSame(s, k, line.pos, ")");
      NextSame(s, k, line.pos);
      RedirsSame(s, k, GetToken(s, Skip(s, line.pos)).next, []);
    }
  }

  lemma {:induction false} PipeSame(s: string, k: nat, i: nat)
    requires Appends(s, k) && i <= |s| && i != k + 1
    ensures Same(k, ParsePipe(s, i), ParsePipe(Single(s, k), i))
    decreases |s| - i, 2
  {
    hide GetToken, Skip, Looks, ParseExec;
    ExecSame(s, k, i);
    var c := ParseExec(s, i);
    if c.Got? {
      LooksSame(s, k, c.pos, "|");
      SkipSame(s, k, c.pos);
      if Looks(s, c.pos, "|") {
        SymbolAhead(s, c.pos, "|");
        NextSame(s, k, c.pos);
        PipeSame(s, k, GetToken(s, Skip(s, c.pos)).next);
      }
    }
  }

  lemma {:induction false} BacksSame(s: string, k: nat, i: nat, c: Cmd)
    requires Appends(s, k) && i <= |s| && i != k + 1
    ensures Backs(Single(s, k), i, c) == Backs(s, i, c) && Backs(s, i, c).1 != k + 1
    decreases |s| - i
  {
    hide GetToken, Skip, Looks;
    LooksSame(s, k, i, "&");
    SkipSame(s, k, i);
    if Looks(s, i, "&") {
      SymbolAhead(s, i, "&");
      NextSame(s, k, i);
      BacksSame(s, k, GetToken(s, Skip(s, i)).next, Back(c));
    }
  }

  lemma {:induction false} LineSame(s: string, k: nat, i: nat)
    requires Appends(s, k) && i <= |s| && i != k + 1
    ensures Same(k, ParseLine(s, i), ParseLine(Single(s, k), i))
    decreases |s| - i, 3
  {
    hide GetToken, Skip, Looks, ParsePipe, Backs;
    PipeSame(s, k, i);
    var c := ParsePipe(s, i);
    if c.Got? {
      BacksSame(s, k, c.pos, c.value);
      var j := Backs(s, c.pos, c.value).1;
      LooksSame(s, k, j, ";");
      SkipSame(s, k, j);
      if Looks(s, j, ";") {
        SymbolAhead(s, j, ";");
        NextSame(s, k, j);
        LineSame(s, k, GetToken(s, Skip(s, j)).next);
      }
    }
  }

  // ---------------------------------------------------------------- meaning

  lemma TextSame(s: string, k: nat, w: Span)
    requires Appends(s, k) && IsWord(s, w)
    ensures Text(Single(s, k), w) == Text(s, w)
  {
    assert InWord(s[w.lo]);
    assert !(w.lo <= k + 1 < w.hi);
  }

  lemma {:induction false} TextsSame(s: string, k: nat, ws: seq<Span>)
    requires Appends(s, k) && forall w :: w in ws ==> IsWord(s, w)
    ensures Texts(Single(s, k), ws) == Texts(s, ws)
  {
    if ws != [] {
      TextSame(s, k, ws[0]);
      TextsSame(s, k, ws[1..]);
    }
  }

  lemma {:induction false} MeaningSame(s: string, k: nat, c: Cmd)
    requires Appends(s, k) && forall w :: Says(c, w) ==> IsWord(s, w)
    ensures Meaning(Single(s, k), c) == Meaning(s, c)
  {
    match c
    case Exec(argv) =>
      assert forall w :: w in argv ==> Says(c, w);
      TextsSame(s, k, argv);
    case Redirect(d, r) =>
      assert forall w :: Says(d, w) || r.file == w ==> Says(c, w);
      MeaningSame(s, k, d);
      TextSame(s, k, r.file);
    case Pipe(l, r) =>
      assert forall w :: Says(l, w) || Says(r, w) ==> Says(c, w);
      MeaningSame(s, k, l);
      MeaningSame(s, k, r);
    case List(l, r) =>
      assert forall w :: Says(l, w) || Says(r, w) ==> Says(c, w);
      MeaningSame(s, k, l);
      MeaningSame(s, k, r);
    case Back(d) =>
      assert forall w :: Says(d, w) ==> Says(c, w);
      MeaningSame(s, k, d);
  }

  /** Wherever a ">>" stands in any input, the shell does what it does with "> " there: it
      parses to the same command or panics alike, and every word is the same. */
  lemma AppendIsOutput(s: string, k: nat)
    requires Appends(s, k) && NUL !in s
    ensures ParseCmd(Single(s, k)) == ParseCmd(s)
    ensures ParseCmd(s).Got? ==> Meaning(Single(s, k), ParseCmd(s).value) == Meaning(s, ParseCmd(s).value)
  {
    hide ParseLine, Skip, Meaning;
    LineSame(s, k, 0);
    var line := ParseLine(s, 0);
    if line.Got? {
      SkipSame(s, k, line.pos);
      if ParseCmd(s).Got? {
        forall w | Says(line.value, w)
          ensures IsWord(s, w)
        {
          SaysExactlyItsWords(s, w);
        }
        MeaningSame(s, k, line.value);
      }
    }
  }
}
