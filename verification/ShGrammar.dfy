/** The shell's language as a grammar over tokens, without a parser: a line is pipelines, each
    followed by any number of "&", separated by ";"; a pipeline is commands separated by "|"; a
    command is words and redirections in any order, or a bracketed line and redirections. */
module ShGrammar {
  import opened ShSpec

  datatype Tok = Word(text: string) | Sym(c: char)

  /** What a redirection says. */
  datatype To = To(way: Way, file: string)

  // ---------------------------------------------------------------- grammar

  predicate IsSign(t: Tok) {
    t == Sym('<') || t == Sym('>') || t == Sym('+')
  }

  function WayOf(t: Tok): Way {
    if t == Sym('<') then Input else Output
  }

  /** Words and redirections, each in their order, however they are mixed. */
  predicate Items(ts: seq<Tok>, args: seq<string>, tos: seq<To>) {
    if ts == [] then args == [] && tos == []
    else if ts[0].Word? then args != [] && args[0] == ts[0].text && Items(ts[1..], args[1..], tos)
    else
      && IsSign(ts[0]) && |ts| >= 2 && ts[1].Word? && tos != [] && tos[0] == To(WayOf(ts[0]), ts[1].text)
      && Items(ts[2..], args, tos[1..])
  }

  lemma NoItems(args: seq<string>, tos: seq<To>)
    ensures Items([], args, tos) <==> args == [] && tos == []
  {
  }

  lemma WordItem(ts: seq<Tok>, args: seq<string>, tos: seq<To>)
    requires Items(ts, args, tos) && ts != [] && ts[0].Word?
    ensures args != [] && args[0] == ts[0].text && Items(ts[1..], args[1..], tos)
  {
  }

  lemma SignItem(ts: seq<Tok>, args: seq<string>, tos: seq<To>)
    requires Items(ts, args, tos) && ts != [] && !ts[0].Word?
    ensures IsSign(ts[0]) && |ts| >= 2 && ts[1].Word? && tos != [] && tos[0] == To(WayOf(ts[0]), ts[1].text)
    ensures Items(ts[2..], args, tos[1..])
  {
  }

  lemma MoreWord(w: string, ts: seq<Tok>, args: seq<string>, tos: seq<To>)
    requires Items(ts, args, tos)
    ensures Items([Word(w)] + ts, [w] + args, tos)
  {
    assert ([Word(w)] + ts)[1..] == ts && ([w] + args)[1..] == args;
  }

  lemma MoreSign(sign: Tok, w: string, ts: seq<Tok>, args: seq<string>, tos: seq<To>)
    requires Items(ts, args, tos) && IsSign(sign)
    ensures Items([sign, Word(w)] + ts, args, [To(WayOf(sign), w)] + tos)
  {
    var all, and := [sign, Word(w)] + ts, [To(WayOf(sign), w)] + tos;
    assert all[0] == sign && all[1] == Word(w) && all[2..] == ts && and[1..] == tos;
  }

  function Onto(t: Tree, tos: seq<To>): Tree {
    if tos == [] then t
    else Redirected(Onto(t, tos[..|tos| - 1]), tos[|tos| - 1].way, tos[|tos| - 1].file)
  }

  ghost predicate IsSimple(ts: seq<Tok>, t: Tree) {
    exists args, tos :: |args| < MAXARGS && Items(ts, args, tos) && t == Onto(Run(args), tos)
  }

  ghost predicate IsBlock(ts: seq<Tok>, t: Tree)
    decreases |ts|, 0
  {
    exists k, body, tos ::
      && 0 < k < |ts| && ts[0] == Sym('(') && ts[k] == Sym(')')
      && IsLine(ts[1..k], body) && Items(ts[k + 1..], [], tos) && t == Onto(body, tos)
  }

  ghost predicate IsExec(ts: seq<Tok>, t: Tree)
    decreases |ts|, 1
  {
    IsSimple(ts, t) || IsBlock(ts, t)
  }

  ghost predicate IsPipe(ts: seq<Tok>, t: Tree)
    decreases |ts|, 2
  {
    || IsExec(ts, t)
    || exists k, l, r ::
         0 <= k < |ts| && ts[k] == Sym('|') && IsExec(ts[..k], l) && IsPipe(ts[k + 1..], r) && t == Piped(l, r)
  }

  ghost predicate IsJob(ts: seq<Tok>, t: Tree)
    decreases |ts|, 3
  {
    || IsPipe(ts, t)
    || (ts != [] && ts[|ts| - 1] == Sym('&') && t.Backed? && IsJob(ts[..|ts| - 1], t.cmd))
  }

  ghost predicate IsLine(ts: seq<Tok>, t: Tree)
    decreases |ts|, 4
  {
    || IsJob(ts, t)
    || exists k, l, r ::
         0 <= k < |ts| && ts[k] == Sym(';') && IsJob(ts[..k], l) && IsLine(ts[k + 1..], r) && t == Listed(l, r)
  }

  // ----------------------------------------------------------------- tokens

  function TokOf(s: string, t: Token): Tok {
    if t.kind == 'a' then Word(Text(s, Span(t.lo, t.hi))) else Sym(t.kind)
  }

  /** The tokens of the input from i on. */
  function Toks(s: string, i: nat): seq<Tok>
    requires i <= |s|
    decreases |s| - i
  {
    var t := GetToken(s, i);
    if t.kind == NUL then [] else [TokOf(s, t)] + Toks(s, t.next)
  }

  lemma SkipToks(s: string, i: nat)
    requires i <= |s|
    ensures Toks(s, Skip(s, i)) == Toks(s, i) && GetToken(s, Skip(s, i)) == GetToken(s, i)
  {
    hide Skip, WordEnd, TokOf;
    assert GetToken(s, Skip(s, i)) == GetToken(s, i);
    hide GetToken;
  }

  predicate Signs(toks: string) {
    toks == "<>" || forall c :: c in toks ==> Symbol(c) && c != '>'
  }

  /** Looking ahead for symbols is looking at the next token. */
  lemma LooksTok(s: string, i: nat, toks: string)
    requires i <= |s| && Signs(toks)
    ensures Looks(s, i, toks) <==>
              && Toks(s, i) != [] && Toks(s, i)[0].Sym?
              && (Toks(s, i)[0].c in toks || (toks == "<>" && Toks(s, i)[0].c == '+'))
  {
    hide Skip, WordEnd;
    assert Skip(s, Skip(s, i)) == Skip(s, i);
  }

  /** Taking the token ahead leaves the others. */
  lemma TakeTok(s: string, i: nat)
    requires i <= |s| && Toks(s, i) != []
    ensures var t := GetToken(s, Skip(s, i));
            t == GetToken(s, i) && i < t.next && TokOf(s, t) == Toks(s, i)[0] && Toks(s, t.next) == Toks(s, i)[1..]
  {
    SkipToks(s, i);
  }

  lemma NoTok(s: string, i: nat)
    requires i <= |s| && Toks(s, i) == []
    ensures GetToken(s, Skip(s, i)).kind == NUL && GetToken(s, Skip(s, i)).next == Skip(s, i)
    ensures NUL !in s ==> Skip(s, i) == |s|
  {
    SkipToks(s, i);
  }

  // ---------------------------------------------------------------- meaning

  function Files(s: string, rs: seq<Redir>): (tos: seq<To>)
    ensures |tos| == |rs|
  {
    seq(|rs|, k requires 0 <= k < |rs| => To(rs[k].way, Text(s, rs[k].file)))
  }

  lemma NoFiles(s: string)
    ensures Files(s, []) == []
  {
  }

  lemma FilesMore(s: string, rs: seq<Redir>, r: Redir)
    ensures Files(s, rs + [r]) == Files(s, rs) + [To(r.way, Text(s, r.file))]
  {
  }

  lemma {:induction false} WrapMeans(s: string, c: Cmd, rs: seq<Redir>)
    ensures Meaning(s, Wrap(c, rs)) == Onto(Meaning(s, c), Files(s, rs))
    decreases |rs|
  {
    if rs != [] {
      var n := |rs| - 1;
      WrapMeans(s, c, rs[..n]);
      assert Files(s, rs)[..n] == Files(s, rs[..n]);
    }
  }

  lemma {:induction false} TextsMore(s: string, ws: seq<Span>, w: Span)
    ensures Texts(s, ws + [w]) == Texts(s, ws) + [Text(s, w)]
  {
    if ws == [] {
      assert ws + [w] == [w];
    } else {
      assert (ws + [w])[1..] == ws[1..] + [w];
      TextsMore(s, ws[1..], w);
    }
  }

  /** The parse has the meaning t and leaves the tokens us. */
  ghost predicate Leaves(s: string, r: Parsed<Cmd>, t: Tree, us: seq<Tok>) {
    r.Got? && r.pos <= |s| && Meaning(s, r.value) == t && Toks(s, r.pos) == us
  }

  /** The tokens us do not go on with a command, a pipeline, a job or a line. */
  predicate Stops(us: seq<Tok>, stops: string) {
    us == [] || (us[0].Sym? && us[0].c in stops)
  }

  // ------------------------------------------------ what the grammar says is parsed

  /** Redirections are read up to the next word or the end of the items. */
  lemma {:induction false} RedirsRead(s: string, i: nat, rs: seq<Redir>, ts: seq<Tok>, us: seq<Tok>, args: seq<string>,
                                      tos: seq<To>) returns (k: nat, m: nat)
    requires i <= |s| && Toks(s, i) == ts + us && Items(ts, args, tos) && Stops(us, "|)&;")
    ensures k <= |ts| && m <= |tos| && Items(ts[k..], args, tos[m..]) && (k < |ts| ==> ts[k].Word?)
    ensures var r := ParseRedirs(s, i, rs);
            r.Got? && Toks(s, r.pos) == ts[k..] + us && Files(s, r.value) == Files(s, rs) + tos[..m]
    ensures args == [] ==> k == |ts| && m == |tos|
    decreases |s| - i
  {
    hide GetToken, Skip, Looks, Toks, Files, Items;
    LooksTok(s, i, "<>");
    if ts == [] || ts[0].Word? {
      k, m := 0, 0;
      SkipToks(s, i);
      assert Files(s, rs) + tos[..0] == Files(s, rs);
      if ts == [] {
        NoItems(args, tos);
      } else {
        WordItem(ts, args, tos);
      }
    } else {
      SignItem(ts, args, tos);
      var r, j := OneRedir(s, i, rs, ts, us);
      var k', m' := RedirsRead(s, j, rs + [r], ts[2..], us, args, tos[1..]);
      k, m := k' + 2, m' + 1;
      assert ts[2..][k'..] == ts[k..] && tos[1..][m'..] == tos[m..];
      assert Files(s, rs) + [tos[0]] + tos[1..][..m'] == Files(s, rs) + tos[..m];
    }
  }

  lemma OneRedir(s: string, i: nat, rs: seq<Redir>, ts: seq<Tok>, us: seq<Tok>) returns (r: Redir, j: nat)
    requires i <= |s| && Toks(s, i) == ts + us && |ts| >= 2 && IsSign(ts[0]) && ts[1].Word?
    ensures i < j <= |s| && Toks(s, j) == ts[2..] + us && ParseRedirs(s, i, rs) == ParseRedirs(s, j, rs + [r])
    ensures Files(s, rs + [r]) == Files(s, rs) + [To(WayOf(ts[0]), ts[1].text)]
  {
    hide GetToken, Skip, Looks, Toks, Files;
    LooksTok(s, i, "<>");
    TakeTok(s, i);
    var t := GetToken(s, Skip(s, i));
    assert Toks(s, t.next) == ts[1..] + us;
    TakeTok(s, t.next);
    var f := GetToken(s, t.next);
    assert Toks(s, f.next) == (ts[1..] + us)[1..] == ts[2..] + us;
    r, j := Redir(if t.kind == '<' then Input else Output, Span(f.lo, f.hi)), f.next;
    FilesMore(s, rs, r);
  }

  lemma {:induction false} ArgsRead(s: string, i: nat, argv: seq<Span>, rs: seq<Redir>, ts: seq<Tok>, us: seq<Tok>,
                                    args: seq<string>, tos: seq<To>)
    requires i <= |s| && Toks(s, i) == ts + us && Items(ts, args, tos) && Stops(us, "|)&;")
    requires (ts != [] ==> ts[0].Word?) && |argv| + |args| < MAXARGS
    ensures Leaves(s, ParseArgs(s, i, argv, rs), Onto(Run(Texts(s, argv) + args), Files(s, rs) + tos), us)
    decreases |s| - i
  {
    hide GetToken, Skip, Looks, Toks, ParseRedirs, Wrap, Onto, Items, Files, Texts;
    LooksTok(s, i, "|)&;");
    if ts == [] {
      NoItems(args, tos);
      SkipToks(s, i);
      WrapMeans(s, Exec(argv), rs);
      assert Texts(s, argv) + args == Texts(s, argv) && Files(s, rs) + tos == Files(s, rs);
      if us == [] {
        NoTok(s, i);
      }
    } else {
      WordItem(ts, args, tos);
      TakeTok(s, i);
      var t := GetToken(s, Skip(s, i));
      var w := Span(t.lo, t.hi);
      assert Toks(s, t.next) == ts[1..] + us;
      var k, m := RedirsRead(s, t.next, rs, ts[1..], us, args[1..], tos);
      var d := ParseRedirs(s, t.next, rs);
      ArgsRead(s, d.pos, argv + [w], d.value, ts[1..][k..], us, args[1..], tos[m..]);
      TextsMore(s, argv, w);
      assert Texts(s, argv) + [args[0]] + args[1..] == Texts(s, argv) + args;
      assert Files(s, rs) + tos[..m] + tos[m..] == Files(s, rs) + tos;
    }
  }

  lemma SimpleRead(s: string, i: nat, ts: seq<Tok>, us: seq<Tok>, t: Tree)
    requires i <= |s| && Toks(s, i) == ts + us && IsSimple(ts, t) && Stops(us, "|)&;")
    ensures Leaves(s, ParseExec(s, i), t, us)
  {
    hide GetToken, Skip, Looks, Toks, ParseRedirs, ParseArgs, Onto, Items, Files;
    NoFiles(s);
    var args, tos :| |args| < MAXARGS && Items(ts, args, tos) && t == Onto(Run(args), tos);
    if ts != [] && !ts[0].Word? {
      SignItem(ts, args, tos);
    }
    LooksTok(s, i, "(");
    SkipToks(s, i);
    var k, m := RedirsRead(s, Skip(s, i), [], ts, us, args, tos);
    var d := ParseRedirs(s, Skip(s, i), []);
    ArgsRead(s, d.pos, [], d.value, ts[k..], us, args, tos[m..]);
    assert Texts(s, []) + args == args && [] + tos[..m] + tos[m..] == tos;
  }

  lemma {:induction false} BlockRead(s: string, i: nat, ts: seq<Tok>, us: seq<Tok>, t: Tree)
    requires i <= |s| && Toks(s, i) == ts + us && IsBlock(ts, t) && Stops(us, "|)&;")
    ensures Leaves(s, ParseExec(s, i), t, us)
    decreases |ts|, 0
  {
    hide GetToken, Skip, Looks, Toks, ParseRedirs, ParseLine, Onto, Wrap, IsLine, Items, Files;
    NoFiles(s);
    var k, body, tos :|
      && 0 < k < |ts| && ts[0] == Sym('(') && ts[k] == Sym(')')
      && IsLine(ts[1..k], body) && Items(ts[k + 1..], [], tos) && t == Onto(body, tos);
    var j := Skip(s, i);
    LooksTok(s, i, "(");
    SkipToks(s, i);
    LooksTok(s, j, "(");
    TakeTok(s, j);
    var open := GetToken(s, Skip(s, j)).next;
    assert Toks(s, open) == (ts + us)[1..] == ts[1..k] + (ts[k..] + us);
    LineRead(s, open, ts[1..k], ts[k..] + us, body);
    var line := ParseLine(s, open);
    LooksTok(s, line.pos, ")");
    TakeTok(s, line.pos);
    var shut := GetToken(s, Skip(s, line.pos)).next;
    assert Toks(s, shut) == (ts[k..] + us)[1..] == ts[k + 1..] + us;
    var a, b := RedirsRead(s, shut, [], ts[k + 1..], us, [], tos);
    var d := ParseRedirs(s, shut, []);
    WrapMeans(s, line.value, d.value);
    assert [] + tos[..b] == tos && ts[k + 1..][a..] + us == us;
  }

  lemma {:induction false} ExecRead(s: string, i: nat, ts: seq<Tok>, us: seq<Tok>, t: Tree)
    requires i <= |s| && Toks(s, i) == ts + us && IsExec(ts, t) && Stops(us, "|)&;")
    ensures Leaves(s, ParseExec(s, i), t, us)
    decreases |ts|, 1
  {
    hide ParseExec, Toks, IsSimple, IsBlock;
    if IsSimple(ts, t) {
      SimpleRead(s, i, ts, us, t);
    } else {
      BlockRead(s, i, ts, us, t);
    }
  }

  lemma {:induction false} PipeRead(s: string, i: nat, ts: seq<Tok>, us: seq<Tok>, t: Tree)
    requires i <= |s| && Toks(s, i) == ts + us && IsPipe(ts, t) && Stops(us, ")&;")
    ensures Leaves(s, ParsePipe(s, i), t, us)
    decreases |ts|, 2
  {
    hide GetToken, Skip, Looks, Toks, ParseExec, IsExec;
    if IsExec(ts, t) {
      ExecRead(s, i, ts, us, t);
      var c := ParseExec(s, i);
      LooksTok(s, c.pos, "|");
      SkipToks(s, c.pos);
    } else {
      var k, l, r :|
        0 <= k < |ts| && ts[k] == Sym('|') && IsExec(ts[..k], l) && IsPipe(ts[k + 1..], r) && t == Piped(l, r);
      var rest := ts[k..] + us;
      assert ts[..k] + rest == ts + us;
      ExecRead(s, i, ts[..k], rest, l);
      var c := ParseExec(s, i);
      LooksTok(s, c.pos, "|");
      TakeTok(s, c.pos);
      assert rest[1..] == ts[k + 1..] + us;
      PipeRead(s, GetToken(s, Skip(s, c.pos)).next, ts[k + 1..], us, r);
    }
  }

  /** After a job's pipeline, the reading of its "&"s comes to its end. */
  lemma {:induction false} JobRead(s: string, i: nat, ts: seq<Tok>, us: seq<Tok>, t: Tree) returns (d: Cmd, m: nat)
    requires i <= |s| && Toks(s, i) == ts + us && IsJob(ts, t) && Stops(us, ")&;")
    ensures m <= |s| && Meaning(s, d) == t && Toks(s, m) == us
    ensures var c := ParsePipe(s, i); c.Got? && Backs(s, c.pos, c.value) == Backs(s, m, d)
    decreases |ts|, 3
  {
    hide GetToken, Skip, Looks, Toks, ParsePipe, IsPipe;
    if IsPipe(ts, t) {
      PipeRead(s, i, ts, us, t);
      d, m := ParsePipe(s, i).value, ParsePipe(s, i).pos;
    } else {
      var n := |ts| - 1;
      assert ts + us == ts[..n] + ([ts[n]] + us);
      var d', m' := JobRead(s, i, ts[..n], [ts[n]] + us, t.cmd);
      LooksTok(s, m', "&");
      TakeTok(s, m');
      d, m := Back(d'), GetToken(s, Skip(s, m')).next;
      assert ([ts[n]] + us)[1..] == us;
    }
  }

  lemma {:induction false} LineRead(s: string, i: nat, ts: seq<Tok>, us: seq<Tok>, t: Tree)
    requires i <= |s| && Toks(s, i) == ts + us && IsLine(ts, t) && Stops(us, ")")
    ensures Leaves(s, ParseLine(s, i), t, us)
    decreases |ts|, 4
  {
    hide GetToken, Skip, Looks, Toks, ParsePipe, IsJob;
    if IsJob(ts, t) {
      var d, m := JobRead(s, i, ts, us, t);
      LooksTok(s, m, "&");
      SkipToks(s, m);
      LooksTok(s, Skip(s, m), ";");
      SkipToks(s, Skip(s, m));
    } else {
      var k, l, r :|
        0 <= k < |ts| && ts[k] == Sym(';') && IsJob(ts[..k], l) && IsLine(ts[k + 1..], r) && t == Listed(l, r);
      var rest := ts[k..] + us;
      assert ts[..k] + rest == ts + us;
      var d, m := JobRead(s, i, ts[..k], rest, l);
      LooksTok(s, m, "&");
      SkipToks(s, m);
      var j := Skip(s, m);
      LooksTok(s, j, ";");
      TakeTok(s, j);
      assert rest[1..] == ts[k + 1..] + us;
      LineRead(s, GetToken(s, Skip(s, j)).next, ts[k + 1..], us, r);
    }
  }

  // ------------------------------------------------- what is parsed the grammar says

  lemma {:induction false} ItemsMore(ts: seq<Tok>, args: seq<string>, tos: seq<To>, us: seq<Tok>, more: seq<string>,
                                     and: seq<To>)
    requires Items(ts, args, tos) && Items(us, more, and)
    ensures Items(ts + us, args + more, tos + and)
    decreases |ts|
  {
    hide Items;
    if ts == [] {
      NoItems(args, tos);
      assert ts + us == us && args + more == more && tos + and == and;
    } else if ts[0].Word? {
      WordItem(ts, args, tos);
      ItemsMore(ts[1..], args[1..], tos, us, more, and);
      MoreWord(ts[0].text, ts[1..] + us, args[1..] + more, tos + and);
      Regroup(ts, us, 1);
      Regroup(args, more, 1);
    } else {
      SignItem(ts, args, tos);
      ItemsMore(ts[2..], args, tos[1..], us, more, and);
      MoreSign(ts[0], ts[1].text, ts[2..] + us, args + more, tos[1..] + and);
      assert ts[..2] == [ts[0], ts[1]];
      Regroup(ts, us, 2);
      Regroup(tos, and, 1);
    }
  }

  lemma Regroup<T>(a: seq<T>, b: seq<T>, n: nat)
    requires n <= |a|
    ensures a[..n] + (a[n..] + b) == a + b
    ensures n == 1 ==> a[..n] == [a[0]]
  {
  }

  lemma {:induction false} RedirsMean(s: string, i: nat, rs: seq<Redir>) returns (ts: seq<Tok>, tos: seq<To>)
    requires i <= |s| && ParseRedirs(s, i, rs).Got?
    ensures var r := ParseRedirs(s, i, rs);
            Toks(s, i) == ts + Toks(s, r.pos) && Items(ts, [], tos) && Files(s, r.value) == Files(s, rs) + tos
    decreases |s| - i
  {
    hide GetToken, Skip, Looks, Toks, Files;
    LooksTok(s, i, "<>");
    if !Looks(s, i, "<>") {
      ts, tos := [], [];
      SkipToks(s, i);
    } else {
      TakeTok(s, i);
      var t := GetToken(s, Skip(s, i));
      var f := GetToken(s, t.next);
      AheadTok(s, t.next);
      var r := Redir(if t.kind == '<' then Input else Output, Span(f.lo, f.hi));
      var more, and := RedirsMean(s, f.next, rs + [r]);
      var sign, to := [Toks(s, i)[0], TokOf(s, f)], To(r.way, Text(s, r.file));
      ts, tos := sign + more, [to] + and;
      FilesMore(s, rs, r);
      MoreSign(sign[0], Text(s, r.file), more, [], and);
    }
  }

  /** A token that is not the end is the next of the tokens. */
  lemma AheadTok(s: string, i: nat)
    requires i <= |s|
    ensures var t := GetToken(s, i);
            if t.kind == NUL then Toks(s, i) == [] else Toks(s, i) == [TokOf(s, t)] + Toks(s, t.next)
  {
  }

  lemma {:induction false} ArgsMean(s: string, i: nat, argv: seq<Span>, rs: seq<Redir>)
    returns (ts: seq<Tok>, args: seq<string>, tos: seq<To>)
    requires i <= |s| && |argv| < MAXARGS && ParseArgs(s, i, argv, rs).Got?
    ensures |argv| + |args| < MAXARGS && Items(ts, args, tos)
    ensures var r := ParseArgs(s, i, argv, rs);
            && Toks(s, i) == ts + Toks(s, r.pos)
            && Meaning(s, r.value) == Onto(Run(Texts(s, argv) + args), Files(s, rs) + tos)
    decreases |s| - i
  {
    hide GetToken, Skip, Looks, Toks, ParseRedirs, Wrap, Onto, Files, Items, Texts;
    SkipToks(s, i);
    var t := GetToken(s, Skip(s, i));
    AheadTok(s, i);
    if Looks(s, i, "|)&;") || t.kind == NUL {
      ts, args, tos := [], [], [];
      NoItems([], []);
      WrapMeans(s, Exec(argv), rs);
      assert Texts(s, argv) + [] == Texts(s, argv) && Files(s, rs) + [] == Files(s, rs);
      if !Looks(s, i, "|)&;") {
        NoTok(s, i);
      }
    } else {
      var w := Span(t.lo, t.hi);
      var d := ParseRedirs(s, t.next, rs);
      var more, and := RedirsMean(s, t.next, rs);
      var us, rest, last := ArgsMean(s, d.pos, argv + [w], d.value);
      ts, args, tos := [Word(Text(s, w))] + (more + us), [Text(s, w)] + rest, and + last;
      ArgItems(Text(s, w), more, and, us, rest, last);
      TextsMore(s, argv, w);
      assert Texts(s, argv) + [Text(s, w)] + rest == Texts(s, argv) + args;
      assert Files(s, rs) + and + last == Files(s, rs) + tos;
      assert [Word(Text(s, w))] + (more + (us + Toks(s, ParseArgs(s, i, argv, rs).pos))) ==
             ts + Toks(s, ParseArgs(s, i, argv, rs).pos);
    }
  }

  /** A word, redirections, and the other items. */
  lemma ArgItems(w: string, more: seq<Tok>, and: seq<To>, us: seq<Tok>, rest: seq<string>, last: seq<To>)
    requires Items(more, [], and) && Items(us, rest, last)
    ensures Items([Word(w)] + (more + us), [w] + rest, and + last)
  {
    hide Items;
    ItemsMore(more, [], and, us, rest, last);
    assert [] + rest == rest;
    MoreWord(w, more + us, rest, and + last);
  }

  lemma {:induction false} ExecMeans(s: string, i: nat) returns (ts: seq<Tok>)
    requires i <= |s| && ParseExec(s, i).Got?
    ensures var r := ParseExec(s, i); Toks(s, i) == ts + Toks(s, r.pos) && IsExec(ts, Meaning(s, r.value))
    decreases |s| - i, 1
  {
    hide GetToken, Skip, Looks, Toks, ParseRedirs, ParseArgs, ParseBlock, Onto, IsBlock, Items, Files;
    NoFiles(s);
    SkipToks(s, i);
    var j := Skip(s, i);
    if Looks(s, i, "(") {
      LooksAfter(s, i, "(");
      ts := BlockMeans(s, j);
    } else {
      var d := ParseRedirs(s, j, []);
      var more, tos := RedirsMean(s, j, []);
      var us, args, and := ArgsMean(s, d.pos, [], d.value);
      ts := more + us;
      ItemsMore(more, [], tos, us, args, and);
      assert [] + args == args && Texts(s, []) + args == args && [] + tos + and == tos + and;
      assert Items(ts, args, tos + and);
    }
  }

  lemma {:induction false} BlockMeans(s: string, i: nat) returns (ts: seq<Tok>)
    requires i <= |s| && ParseBlock(s, i).Got? && Looks(s, i, "(")
    ensures var r := ParseBlock(s, i); Toks(s, i) == ts + Toks(s, r.pos) && IsBlock(ts, Meaning(s, r.value))
    decreases |s| - i, 0
  {
    hide GetToken, Skip, Looks, Toks, ParseRedirs, ParseLine, Onto, Wrap, IsLine, Items, Files;
    NoFiles(s);
    LooksTok(s, i, "(");
    TakeTok(s, i);
    var open := GetToken(s, Skip(s, i)).next;
    var line := ParseLine(s, open);
    var body := LineMeans(s, open);
    LooksTok(s, line.pos, ")");
    TakeTok(s, line.pos);
    var shut := GetToken(s, Skip(s, line.pos)).next;
    var d := ParseRedirs(s, shut, []);
    var more, tos := RedirsMean(s, shut, []);
    WrapMeans(s, line.value, d.value);
    assert [] + tos == tos;
    ts := [Sym('(')] + body + [Sym(')')] + more;
    var k := 1 + |body|;
    assert ts[0] == Sym('(') && ts[k] == Sym(')') && ts[1..k] == body && ts[k + 1..] == more;
  }

  lemma {:induction false} PipeMeans(s: string, i: nat) returns (ts: seq<Tok>)
    requires i <= |s| && ParsePipe(s, i).Got?
    ensures var r := ParsePipe(s, i); Toks(s, i) == ts + Toks(s, r.pos) && IsPipe(ts, Meaning(s, r.value))
    decreases |s| - i, 2
  {
    hide GetToken, Skip, Looks, Toks, ParseExec, IsExec;
    var l := ExecMeans(s, i);
    var c := ParseExec(s, i);
    LooksTok(s, c.pos, "|");
    if !Looks(s, c.pos, "|") {
      SkipToks(s, c.pos);
      ts := l;
    } else {
      TakeTok(s, c.pos);
      var k := GetToken(s, Skip(s, c.pos)).next;
      var r := PipeMeans(s, k);
      ts := l + [Sym('|')] + r;
      assert ts[|l|] == Sym('|') && ts[..|l|] == l && ts[|l| + 1..] == r;
    }
  }

  lemma {:induction false} BacksMean(s: string, i: nat, c: Cmd, before: seq<Tok>) returns (ts: seq<Tok>)
    requires i <= |s| && IsJob(before, Meaning(s, c))
    ensures var b := Backs(s, i, c); before + Toks(s, i) == ts + Toks(s, b.1) && IsJob(ts, Meaning(s, b.0))
    decreases |s| - i
  {
    hide GetToken, Skip, Looks, Toks, IsPipe;
    LooksTok(s, i, "&");
    if Looks(s, i, "&") {
      TakeTok(s, i);
      var k := GetToken(s, Skip(s, i)).next;
      var more := before + [Sym('&')];
      assert more[..|before|] == before && more + Toks(s, k) == before + Toks(s, i);
      ts := BacksMean(s, k, Back(c), more);
    } else {
      SkipToks(s, i);
      ts := before;
    }
  }

  lemma {:induction false} LineMeans(s: string, i: nat) returns (ts: seq<Tok>)
    requires i <= |s| && ParseLine(s, i).Got?
    ensures var r := ParseLine(s, i); Toks(s, i) == ts + Toks(s, r.pos) && IsLine(ts, Meaning(s, r.value))
    decreases |s| - i, 3
  {
    hide GetToken, Skip, Looks, Toks, ParsePipe, Backs, IsJob;
    var p := PipeMeans(s, i);
    var c := ParsePipe(s, i);
    PipeIsJob(p, Meaning(s, c.value));
    var l := BacksMean(s, c.pos, c.value, p);
    var j := Backs(s, c.pos, c.value).1;
    LooksTok(s, j, ";");
    if !Looks(s, j, ";") {
      SkipToks(s, j);
      ts := l;
    } else {
      TakeTok(s, j);
      var k := GetToken(s, Skip(s, j)).next;
      var r := LineMeans(s, k);
      ts := l + [Sym(';')] + r;
      assert ts[|l|] == Sym(';') && ts[..|l|] == l && ts[|l| + 1..] == r;
    }
  }

  lemma PipeIsJob(ts: seq<Tok>, t: Tree)
    requires IsPipe(ts, t)
    ensures IsJob(ts, t)
  {
  }

  // ---------------------------------------------------------------- theorems

  /** parsecmd gives the command t for exactly those inputs whose tokens the grammar says are t,
      and panics for all others. */
  lemma ParsesExactly(s: string, t: Tree)
    requires NUL !in s
    ensures ParseCmd(s).Got? && Meaning(s, ParseCmd(s).value) == t <==> IsLine(Toks(s, 0), t)
  {
    hide ParseLine, Skip, IsLine, Toks;
    var ts := Toks(s, 0);
    var r := ParseLine(s, 0);
    if IsLine(ts, t) {
      assert ts + [] == ts;
      LineRead(s, 0, ts, [], t);
      NoTok(s, r.pos);
    }
    if ParseCmd(s).Got? && Meaning(s, ParseCmd(s).value) == t {
      var us := LineMeans(s, 0);
      AllRead(s, r.pos);
      assert us + [] == us;
    }
  }

  lemma AllRead(s: string, i: nat)
    requires i <= |s| && Skip(s, i) == |s|
    ensures Toks(s, i) == []
  {
  }

  /** So the grammar gives each input one meaning at most. */
  lemma OneMeaning(s: string, t: Tree, u: Tree)
    requires NUL !in s && IsLine(Toks(s, 0), t) && IsLine(Toks(s, 0), u)
    ensures t == u
  {
    hide IsLine, ParseCmd, Toks;
    ParsesExactly(s, t);
    ParsesExactly(s, u);
  }

  // --------------------------------------------------------------- spelling

  predicate ValidTok(t: Tok) {
    match t
    case Word(w) => ValidWord(w)
    case Sym(c) => Symbol(c) || c == '+'
  }

  function Letters(t: Tok): string {
    match t
    case Word(w) => w
    case Sym(c) => if c == '+' then ">>" else [c]
  }

  /** The tokens as text, with a blank after each. */
  function Spelled(ts: seq<Tok>): string {
    if ts == [] then "" else Letters(ts[0]) + (" " + Spelled(ts[1..]))
  }

  lemma BlankToks(s: string, i: nat)
    requires i < |s| && s[i] == ' '
    ensures Toks(s, i) == Toks(s, i + 1)
  {
    SkipToks(s, i);
    SkipToks(s, i + 1);
  }

  /** A token that a blank follows is read as it is spelled. */
  lemma OneTok(s: string, i: nat, t: Tok)
    requires ValidTok(t) && i + |Letters(t)| < |s| && s[i..i + |Letters(t)|] == Letters(t) && s[i + |Letters(t)|] == ' '
    ensures var g := GetToken(s, i); g.kind != NUL && TokOf(s, g) == t && g.next == Skip(s, i + |Letters(t)|)
  {
    hide Skip, WordEnd;
    var n := |Letters(t)|;
    forall k | 0 <= k < n
      ensures s[i + k] == Letters(t)[k]
    {
      assert s[i..i + n][k] == s[i + k];
    }
    if t.Word? {
      WordRead(s, i, t.text);
    } else {
      assert s[i] == if t.c == '+' then '>' else t.c;
      assert t.c == '+' ==> s[i + 1] == '>';
      NotBlank(s, i);
    }
  }

  lemma NotBlank(s: string, i: nat)
    requires i <= |s| && !Space(At(s, i))
    ensures Skip(s, i) == i
  {
  }

  /** Every sequence of tokens is that of some input. */
  lemma {:induction false} SpelledToks(s: string, i: nat, ts: seq<Tok>)
    requires i <= |s| && s[i..] == Spelled(ts) && forall k :: 0 <= k < |ts| ==> ValidTok(ts[k])
    ensures Toks(s, i) == ts
    decreases |ts|
  {
    hide GetToken, Skip, Letters, ValidTok;
    AheadTok(s, i);
    if ts == [] {
      AtEnd(s, i);
    } else {
      var n := |Letters(ts[0])|;
      SpelledFirst(s, i, Letters(ts[0]), Spelled(ts[1..]));
      SpelledToks(s, i + n + 1, ts[1..]);
      OneTok(s, i, ts[0]);
      SkipToks(s, i + n);
      BlankToks(s, i + n);
    }
  }

  lemma SpelledFirst(s: string, i: nat, w: string, rest: string)
    requires i <= |s| && s[i..] == w + (" " + rest)
    ensures i + |w| < |s| && s[i..i + |w|] == w && s[i + |w|] == ' ' && s[i + |w| + 1..] == rest
  {
    var n := |w|;
    assert s[i..][..n] == s[i..i + n] && s[i..][n] == s[i + n] && s[i..][n + 1..] == s[i + n + 1..];
  }

  lemma AtEnd(s: string, i: nat)
    requires i == |s|
    ensures GetToken(s, i).kind == NUL
  {
  }

  lemma {:induction false} NoNul(ts: seq<Tok>)
    requires forall k :: 0 <= k < |ts| ==> ValidTok(ts[k])
    ensures NUL !in Spelled(ts)
  {
    if ts != [] {
      NoNul(ts[1..]);
      assert NUL !in Letters(ts[0]) by {
        assert ValidTok(ts[0]);
      }
    }
  }

  /** Whatever the grammar says of some tokens, parsecmd says of the text that spells them. */
  lemma SpelledParses(ts: seq<Tok>, t: Tree)
    requires IsLine(ts, t) && forall k :: 0 <= k < |ts| ==> ValidTok(ts[k])
    ensures var s := Spelled(ts); ParseCmd(s).Got? && Meaning(s, ParseCmd(s).value) == t
  {
    hide IsLine, ParseCmd, Toks, Spelled, ValidTok;
    var s := Spelled(ts);
    assert s[0..] == s;
    NoNul(ts);
    SpelledToks(s, 0, ts);
    ParsesExactly(s, t);
  }
}
