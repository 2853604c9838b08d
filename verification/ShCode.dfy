/** sh.c's parser over its input buffer, and nulterminate, which cuts the buffer in place. */
module ShCode {
  import opened ShSpec

  /** The string that starts at i and runs to the first NUL. */
  function CString(b: string, i: nat): string
    decreases |b| - i
  {
    if i >= |b| || b[i] == NUL then "" else [b[i]] + CString(b, i + 1)
  }

  function CStrings(b: string, ws: seq<Span>): seq<string> {
    if ws == [] then [] else [CString(b, ws[0].lo)] + CStrings(b, ws[1..])
  }

  /** The command that runcmd sees: every word by its first character only. */
  function Seen(b: string, c: Cmd): Tree {
    match c
    case Exec(argv) => Run(CStrings(b, argv))
    case Redirect(d, r) => Redirected(Seen(b, d), r.way, CString(b, r.file.lo))
    case Pipe(l, r) => Piped(Seen(b, l), Seen(b, r))
    case List(l, r) => Listed(Seen(b, l), Seen(b, r))
    case Back(d) => Backed(Seen(b, d))
  }

  /** Position k ends a word of c. */
  ghost predicate Ends(c: Cmd, k: nat) {
    match c
    case Exec(argv) => exists i :: 0 <= i < |argv| && argv[i].hi == k
    case Redirect(d, r) => Ends(d, k) || r.file.hi == k
    case Pipe(l, r) => Ends(l, k) || Ends(r, k)
    case List(l, r) => Ends(l, k) || Ends(r, k)
    case Back(d) => Ends(d, k)
  }

  /** s with its NUL, cut at the ends of c's words. */
  ghost predicate Cut(s: string, b: string, c: Cmd) {
    && |b| > |s|
    && (forall k: nat :: k < |b| && Ends(c, k) ==> b[k] == NUL)
    && (forall k: nat :: k < |s| && !Ends(c, k) ==> b[k] == s[k])
  }

  ghost predicate EndsBelow(c: Cmd, n: nat) {
    match c
    case Exec(argv) => forall i :: 0 <= i < |argv| ==> argv[i].hi < n
    case Redirect(d, r) => EndsBelow(d, n) && r.file.hi < n
    case Pipe(l, r) => EndsBelow(l, n) && EndsBelow(r, n)
    case List(l, r) => EndsBelow(l, n) && EndsBelow(r, n)
    case Back(d) => EndsBelow(d, n)
  }

  // ------------------------------------------------------------ the cut

  ghost predicate AllWords(s: string, c: Cmd) {
    forall w :: Says(c, w) ==> IsWord(s, w)
  }

  lemma {:induction false} WordsBelow(s: string, c: Cmd, n: nat)
    requires AllWords(s, c) && |s| < n
    ensures EndsBelow(c, n)
    decreases c
  {
    match c
    case Exec(argv) => assert forall i :: 0 <= i < |argv| ==> Says(c, argv[i]);
    case Redirect(d, r) =>
      assert forall w :: Says(d, w) ==> Says(c, w);
      assert Says(c, r.file);
      WordsBelow(s, d, n);
    case Pipe(l, r) =>
      assert forall w :: Says(l, w) || Says(r, w) ==> Says(c, w);
      WordsBelow(s, l, n);
      WordsBelow(s, r, n);
    case List(l, r) =>
      assert forall w :: Says(l, w) || Says(r, w) ==> Says(c, w);
      WordsBelow(s, l, n);
      WordsBelow(s, r, n);
    case Back(d) =>
      assert forall w :: Says(d, w) ==> Says(c, w);
      WordsBelow(s, d, n);
  }

  /** The cuts are where the words end. */
  lemma {:induction false} EndsSaid(c: Cmd, k: nat)
    ensures Ends(c, k) <==> exists w :: Says(c, w) && w.hi == k
    decreases c
  {
    match c
    case Exec(argv) =>
      if w :| Says(c, w) && w.hi == k {
        var i :| 0 <= i < |argv| && argv[i] == w;
      }
      if i :| 0 <= i < |argv| && argv[i].hi == k {
        assert Says(c, argv[i]);
      }
    case Redirect(d, r) =>
      EndsSaid(d, k);
      assert Says(c, r.file);
      assert forall w :: Says(d, w) ==> Says(c, w);
    case Pipe(l, r) =>
      EndsSaid(l, k);
      EndsSaid(r, k);
      assert forall w :: Says(l, w) || Says(r, w) <==> Says(c, w);
    case List(l, r) =>
      EndsSaid(l, k);
      EndsSaid(r, k);
      assert forall w :: Says(l, w) || Says(r, w) <==> Says(c, w);
    case Back(d) =>
      EndsSaid(d, k);
      assert forall w :: Says(d, w) <==> Says(c, w);
  }

  /** The ends of words lie between words. */
  lemma EndsBetween(s: string, c: Cmd, k: nat)
    requires AllWords(s, c) && Ends(c, k)
    ensures k <= |s| && (k < |s| ==> !InWord(s[k]))
  {
    EndsSaid(c, k);
    hide Says, Ends;
    var w :| Says(c, w) && w.hi == k;
  }

  lemma {:induction false} WordSeen(s: string, b: string, i: nat, hi: nat)
    requires i <= hi <= |s| && hi < |b| && b[hi] == NUL
    requires forall k :: i <= k < hi ==> b[k] == s[k] != NUL
    ensures CString(b, i) == s[i..hi]
    decreases hi - i
  {
    if i < hi {
      WordSeen(s, b, i + 1, hi);
      assert s[i..hi] == [s[i]] + s[i + 1..hi];
    }
  }

  /** A word of the command is seen exactly as it was typed. */
  lemma SpanSeen(s: string, b: string, c: Cmd, w: Span)
    requires AllWords(s, c) && Cut(s, b, c) && NUL !in s && Says(c, w)
    ensures CString(b, w.lo) == Text(s, w)
  {
    EndsSaid(c, w.hi);
    hide Says, Ends;
    forall k: nat | w.lo <= k < w.hi
      ensures b[k] == s[k] != NUL
    {
      if Ends(c, k) {
        EndsBetween(s, c, k);
      }
      assert s[k] in s;
    }
    WordSeen(s, b, w.lo, w.hi);
  }

  lemma {:induction false} ArgsSeen(s: string, b: string, c: Cmd, argv: seq<Span>)
    requires AllWords(s, c) && Cut(s, b, c) && NUL !in s
    requires forall w :: w in argv ==> Says(c, w)
    ensures CStrings(b, argv) == Texts(s, argv)
    decreases |argv|
  {
    hide Cut, AllWords;
    if argv != [] {
      SpanSeen(s, b, c, argv[0]);
      ArgsSeen(s, b, c, argv[1..]);
    }
  }

  lemma {:induction false} PartSeen(s: string, b: string, c: Cmd, d: Cmd)
    requires AllWords(s, c) && Cut(s, b, c) && NUL !in s && forall w :: Says(d, w) ==> Says(c, w)
    ensures Seen(b, d) == Meaning(s, d)
    decreases d
  {
    hide Cut, AllWords;
    match d
    case Exec(argv) =>
      assert forall w :: w in argv ==> Says(d, w);
      ArgsSeen(s, b, c, argv);
    case Redirect(e, r) =>
      assert Says(d, r.file) && forall w :: Says(e, w) ==> Says(d, w);
      SpanSeen(s, b, c, r.file);
      PartSeen(s, b, c, e);
    case Pipe(l, r) =>
      assert forall w :: Says(l, w) || Says(r, w) ==> Says(d, w);
      PartSeen(s, b, c, l);
      PartSeen(s, b, c, r);
    case List(l, r) =>
      assert forall w :: Says(l, w) || Says(r, w) ==> Says(d, w);
      PartSeen(s, b, c, l);
      PartSeen(s, b, c, r);
    case Back(e) =>
      assert forall w :: Says(e, w) ==> Says(d, w);
      PartSeen(s, b, c, e);
  }

  /** Cutting the buffer at the ends of the words leaves every argument and file name as it
      was typed, ending exactly where its token does. */
  lemma CutSeen(s: string, b: string, c: Cmd)
    requires AllWords(s, c) && Cut(s, b, c) && NUL !in s
    ensures Seen(b, c) == Meaning(s, c)
  {
    PartSeen(s, b, c, c);
  }

  // ----------------------------------------------------------- the parser

  /** The buffer holds a string of length es. */
  ghost predicate Terminated(buf: array<char>, es: nat)
    reads buf
  {
    es < buf.Length && buf[es] == NUL
  }

  /** The loop that gettoken and peek skip blanks with. */
  method SkipSpace(buf: array<char>, s: nat, es: nat) returns (t: nat)
    requires Terminated(buf, es) && s <= es
    ensures t == Skip(buf[..es], s)
  {
    t := s;
    while t < es && Space(buf[t])
      invariant s <= t <= es && Skip(buf[..es], t) == Skip(buf[..es], s)
    {
      t := t + 1;
    }
  }

  /** gettoken's loop over a word, sh.c:353-354. */
  method SkipWord(buf: array<char>, s: nat, es: nat) returns (t: nat)
    requires Terminated(buf, es) && s <= es
    ensures t == WordEnd(buf[..es], s)
  {
    t := s;
    while t < es && !Space(buf[t]) && !Symbol(buf[t])
      invariant s <= t <= es && WordEnd(buf[..es], t) == WordEnd(buf[..es], s)
    {
      t := t + 1;
    }
  }

  /** gettoken, sh.c:321-364. */
  method Gettoken(buf: array<char>, ps: nat, es: nat) returns (ret: char, q: nat, eq: nat, next: nat)
    requires Terminated(buf, es) && ps <= es
    ensures Token(ret, q, eq, next) == GetToken(buf[..es], ps)
  {
    hide Skip, WordEnd;
    var s := SkipSpace(buf, ps, es);
    q := s;
    ret := buf[s];
    if buf[s] == NUL {
    } else if buf[s] in "|();&<" {
      s := s + 1;
    } else if buf[s] == '>' {
      s := s + 1;
      if buf[s] == '>' {
        ret := '+';
        s := s + 1;
      }
    } else {
      ret := 'a';
      s := SkipWord(buf, s, es);
    }
    eq := s;
    next := SkipSpace(buf, s, es);
  }

  /** peek, sh.c:366-376. */
  method Peek(buf: array<char>, ps: nat, es: nat, toks: string) returns (found: bool, next: nat)
    requires Terminated(buf, es) && ps <= es
    ensures next == Skip(buf[..es], ps) && found == Looks(buf[..es], ps, toks)
  {
    next := SkipSpace(buf, ps, es);
    found := buf[next] != NUL && buf[next] in toks;
  }

  /** parseredirs, sh.c:430-453; each redirection goes around those before it. */
  method Parseredirs(buf: array<char>, ps: nat, es: nat, rs0: seq<Redir>) returns (r: Parsed<seq<Redir>>)
    requires Terminated(buf, es) && ps <= es
    ensures r == ParseRedirs(buf[..es], ps, rs0)
  {
    ghost var s := buf[..es];
    var rs := rs0;
    var more, i := Peek(buf, ps, es, "<>");
    while more
      invariant i <= es && more == Looks(s, i, "<>") && i == Skip(s, i)
      invariant ParseRedirs(s, ps, rs0) == ParseRedirs(s, i, rs)
      decreases es - i
    {
      var tok, _, _, j := Gettoken(buf, i, es);
      var kind, q, eq, k := Gettoken(buf, j, es);
      if kind != 'a' {
        return Panic("missing file for redirection");
      }
      rs := rs + [Redir(if tok == '<' then Input else Output, Span(q, eq))];
      more, i := Peek(buf, k, es, "<>");
    }
    return Got(rs, i);
  }

  /** Looking ahead changes neither what is seen nor what is parsed. */
  lemma ArgsAfter(s: string, i: nat, argv: seq<Span>, rs: seq<Redir>)
    requires i <= |s|
    ensures var j := Skip(s, i);
            && Skip(s, j) == j && (Looks(s, j, "|)&;") <==> Looks(s, i, "|)&;"))
            && ParseArgs(s, j, argv, rs) == ParseArgs(s, i, argv, rs)
  {
    hide GetToken, ParseRedirs, Wrap;
    LooksAfter(s, i, "|)&;");
  }

  lemma ArgsUnfold(s: string, i: nat, argv: seq<Span>, rs: seq<Redir>)
    requires i <= |s| && Skip(s, i) == i && !Looks(s, i, "|)&;")
    ensures var t := GetToken(s, i);
            var w := Span(t.lo, t.hi);
            ParseArgs(s, i, argv, rs) ==
              if t.kind == NUL then Got(Wrap(Exec(argv), rs), t.next)
              else if t.kind != 'a' then Panic("syntax")
              else if |argv + [w]| >= MAXARGS then Panic("too many args")
              else match ParseRedirs(s, t.next, rs)
                case Panic(m) => Panic(m)
                case Got(rs', j) => ParseArgs(s, j, argv + [w], rs')
  {
    hide GetToken, ParseRedirs, Wrap;
  }

  lemma ArgsEnd(s: string, i: nat, argv: seq<Span>, rs: seq<Redir>)
    requires i <= |s| && Skip(s, i) == i && Looks(s, i, "|)&;")
    ensures ParseArgs(s, i, argv, rs) == Got(Wrap(Exec(argv), rs), i)
  {
  }

  /** parseexec's loop, sh.c:486-498. */
  method ParseWords(buf: array<char>, ps: nat, es: nat, rs0: seq<Redir>) returns (r: Parsed<Cmd>)
    requires Terminated(buf, es) && ps <= es
    ensures r == ParseArgs(buf[..es], ps, [], rs0)
  {
    hide GetToken, ParseRedirs, ParseArgs, Skip, Looks, Wrap;
    ghost var s := buf[..es];
    var argv, rs := [], rs0;
    var stop, i := Peek(buf, ps, es, "|)&;");
    ArgsAfter(s, ps, argv, rs);
    while !stop
      invariant i <= es && stop == Looks(s, i, "|)&;") && i == Skip(s, i)
      invariant ParseArgs(s, ps, [], rs0) == ParseArgs(s, i, argv, rs)
      decreases es - i
    {
      ArgsUnfold(s, i, argv, rs);
      var tok, q, eq, j := Gettoken(buf, i, es);
      if tok == NUL {
        return Got(Wrap(Exec(argv), rs), j);
      }
      if tok != 'a' {
        return Panic("syntax");
      }
      var args := argv + [Span(q, eq)];
      if |args| >= MAXARGS {
        return Panic("too many args");
      }
      var redirs := Parseredirs(buf, j, es, rs);
      if redirs.Panic? {
        return Panic(redirs.msg);
      }
      argv, rs := args, redirs.value;
      stop, i := Peek(buf, redirs.pos, es, "|)&;");
      ArgsAfter(s, redirs.pos, argv, rs);
    }
    ArgsEnd(s, i, argv, rs);
    return Got(Wrap(Exec(argv), rs), i);
  }

  /** parseexec, sh.c:471-502. */
  method Parseexec(buf: array<char>, ps: nat, es: nat) returns (r: Parsed<Cmd>)
    requires Terminated(buf, es) && ps <= es
    ensures r == ParseExec(buf[..es], ps)
    decreases es - ps, 1
  {
    var block, i := Peek(buf, ps, es, "(");
    if block {
      r := Parseblock(buf, i, es);
    } else {
      var redirs := Parseredirs(buf, i, es, []);
      if redirs.Panic? {
        return Panic(redirs.msg);
      }
      r := ParseWords(buf, redirs.pos, es, redirs.value);
    }
  }

  /** parseblock, sh.c:455-469; its callers have seen the bracket. */
  method Parseblock(buf: array<char>, ps: nat, es: nat) returns (r: Parsed<Cmd>)
    requires Terminated(buf, es) && ps <= es
    ensures r == ParseBlock(buf[..es], ps)
    decreases es - ps, 0
  {
    var found, i := Peek(buf, ps, es, "(");
    if !found {
      return Panic("parseblock");
    }
    var tok, _, _, j := Gettoken(buf, i, es);
    var line := Parseline(buf, j, es);
    if line.Panic? {
      return line;
    }
    var closed, k := Peek(buf, line.pos, es, ")");
    if !closed {
      return Panic("syntax - missing )");
    }
    var close, _, _, m := Gettoken(buf, k, es);
    var redirs := Parseredirs(buf, m, es, []);
    if redirs.Panic? {
      return Panic(redirs.msg);
    }
    return Got(Wrap(line.value, redirs.value), redirs.pos);
  }

  /** parsepipe, sh.c:417-428. */
  method Parsepipe(buf: array<char>, ps: nat, es: nat) returns (r: Parsed<Cmd>)
    requires Terminated(buf, es) && ps <= es
    ensures r == ParsePipe(buf[..es], ps)
    decreases es - ps, 2
  {
    r := Parseexec(buf, ps, es);
    if r.Panic? {
      return;
    }
    var more, i := Peek(buf, r.pos, es, "|");
    if !more {
      return Got(r.value, i);
    }
    var tok, _, _, j := Gettoken(buf, i, es);
    var right := Parsepipe(buf, j, es);
    if right.Panic? {
      return right;
    }
    return Got(Pipe(r.value, right.value), right.pos);
  }

  /** parseline, sh.c:400-415. */
  method Parseline(buf: array<char>, ps: nat, es: nat) returns (r: Parsed<Cmd>)
    requires Terminated(buf, es) && ps <= es
    ensures r == ParseLine(buf[..es], ps)
    decreases es - ps, 3
  {
    ghost var s := buf[..es];
    r := Parsepipe(buf, ps, es);
    if r.Panic? {
      return;
    }
    var c := r.value;
    var more, i := Peek(buf, r.pos, es, "&");
    while more
      invariant ps <= i <= es && more == Looks(s, i, "&") && i == Skip(s, i)
      invariant Backs(s, r.pos, r.value) == Backs(s, i, c)
      decreases es - i
    {
      var tok, _, _, j := Gettoken(buf, i, es);
      c := Back(c);
      more, i := Peek(buf, j, es, "&");
    }
    more, i := Peek(buf, i, es, ";");
    if !more {
      return Got(c, i);
    }
    var tok, _, _, j := Gettoken(buf, i, es);
    var rest := Parseline(buf, j, es);
    if rest.Panic? {
      return rest;
    }
    return Got(List(c, rest.value), rest.pos);
  }

  /** strlen, ulib.c:26-34. */
  method Strlen(buf: array<char>) returns (n: nat)
    requires NUL in buf[..]
    ensures Terminated(buf, n) && NUL !in buf[..n]
  {
    n := 0;
    while buf[n] != NUL
      invariant n < buf.Length && NUL !in buf[..n] && NUL in buf[n..]
      decreases buf.Length - n
    {
      assert buf[n..] == [buf[n]] + buf[n + 1..];
      n := n + 1;
    }
  }

  /** nulterminate, sh.c:505-549. */
  method Nulterminate(buf: array<char>, c: Cmd)
    requires EndsBelow(c, buf.Length)
    modifies buf
    ensures forall k: nat :: k < buf.Length ==> buf[k] == if Ends(c, k) then NUL else old(buf[k])
    decreases c
  {
    match c
    case Exec(argv) =>
      var i := 0;
      while i < |argv|
        invariant 0 <= i <= |argv|
        invariant forall k: nat :: k < buf.Length ==>
                    buf[k] == if exists j :: 0 <= j < i && argv[j].hi == k then NUL else old(buf[k])
      {
        buf[argv[i].hi] := NUL;
        i := i + 1;
      }
    case Redirect(d, r) =>
      Nulterminate(buf, d);
      buf[r.file.hi] := NUL;
    case Pipe(l, r) =>
      Nulterminate(buf, l);
      Nulterminate(buf, r);
    case List(l, r) =>
      Nulterminate(buf, l);
      Nulterminate(buf, r);
    case Back(d) => Nulterminate(buf, d);
  }

  /** parsecmd, sh.c:383-398: what runcmd sees in the cut buffer is what was parsed. */
  method Parsecmd(buf: array<char>) returns (r: Parsed<Cmd>, ghost es: nat)
    requires NUL in buf[..]
    modifies buf
    ensures es < buf.Length && NUL !in old(buf[..])[..es] && r == ParseCmd(old(buf[..])[..es])
    ensures r.Got? ==> Seen(buf[..], r.value) == Meaning(old(buf[..])[..es], r.value)
    ensures r.Panic? ==> buf[..] == old(buf[..])
  {
    var n := Strlen(buf);
    es := n;
    ghost var s := buf[..n];
    r := Parseline(buf, 0, n);
    if r.Panic? {
      return;
    }
    var _, i := Peek(buf, r.pos, n, "");
    if i != n {
      return Panic("syntax"), es;
    }
    r := Got(r.value, n);
    forall w | Says(r.value, w)
      ensures IsWord(s, w)
    {
      SaysExactlyItsWords(s, w);
    }
    WordsBelow(s, r.value, buf.Length);
    Nulterminate(buf, r.value);
    CutSeen(s, buf[..], r.value);
  }
}
