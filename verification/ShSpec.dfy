/** The shell's command language: tokens, the parser as functions of the input and a position,
    and a printer that the parser inverts. */
module ShSpec {
  const NUL: char := '\0'
  const MAXARGS: nat := 10

  predicate Space(c: char) {
    c == ' ' || c == '\t' || c == '\r' || c == '\n' || c == '\U{B}'
  }

  predicate Symbol(c: char) {
    c == '<' || c == '|' || c == '>' || c == '&' || c == ';' || c == '(' || c == ')'
  }

  predicate InWord(c: char) {
    !Space(c) && !Symbol(c)
  }

  /** The string is followed by its terminating NUL. */
  function At(s: string, i: nat): char {
    if i < |s| then s[i] else NUL
  }

  // ----------------------------------------------------------------- tokens

  function Skip(s: string, i: nat): (j: nat)
    requires i <= |s|
    ensures i <= j <= |s| && !Space(At(s, j)) && (!Space(At(s, i)) ==> j == i)
    decreases |s| - i
  {
    if i < |s| && Space(s[i]) then Skip(s, i + 1) else i
  }

  function WordEnd(s: string, i: nat): (j: nat)
    requires i <= |s|
    ensures i <= j <= |s| && (forall k :: i <= k < j ==> InWord(s[k])) && (j < |s| ==> !InWord(s[j]))
    decreases |s| - i
  {
    if i < |s| && InWord(s[i]) then WordEnd(s, i + 1) else i
  }

  /** A word has kind 'a', ">>" kind '+', and the end of the input kind NUL. */
  datatype Token = Token(kind: char, lo: nat, hi: nat, next: nat)

  function GetToken(s: string, i: nat): (t: Token)
    requires i <= |s|
    ensures i <= t.lo <= t.hi <= t.next <= |s|
    ensures t.kind != NUL ==> i < t.next
  {
    var lo := Skip(s, i);
    var c := At(s, lo);
    if c == NUL then Token(NUL, lo, lo, lo)
    else if c == '>' && At(s, lo + 1) == '>' then Token('+', lo, lo + 2, Skip(s, lo + 2))
    else if Symbol(c) then Token(c, lo, lo + 1, Skip(s, lo + 1))
    else Token('a', lo, WordEnd(s, lo), Skip(s, WordEnd(s, lo)))
  }

  predicate Looks(s: string, i: nat, toks: string)
    requires i <= |s|
  {
    At(s, Skip(s, i)) != NUL && At(s, Skip(s, i)) in toks
  }

  // ---------------------------------------------------------------- parsing

  /** A word of the input, by its first character and the one after its last. */
  datatype Span = Span(lo: nat, hi: nat)
  datatype Way = Input | Output
  datatype Redir = Redir(way: Way, file: Span)

  datatype Cmd =
    | Exec(argv: seq<Span>)
    | Redirect(cmd: Cmd, to: Redir)
    | Pipe(left: Cmd, right: Cmd)
    | List(left: Cmd, right: Cmd)
    | Back(cmd: Cmd)

  datatype Parsed<T> = Got(value: T, pos: nat) | Panic(msg: string)

  function Wrap(c: Cmd, rs: seq<Redir>): Cmd {
    if rs == [] then c else Redirect(Wrap(c, rs[..|rs| - 1]), rs[|rs| - 1])
  }

  function ParseRedirs(s: string, i: nat, rs: seq<Redir>): (r: Parsed<seq<Redir>>)
    requires i <= |s|
    ensures r.Got? ==> i <= r.pos <= |s|
    decreases |s| - i
  {
    if !Looks(s, i, "<>") then Got(rs, Skip(s, i)) else
    var t := GetToken(s, Skip(s, i));
    var f := GetToken(s, t.next);
    if f.kind != 'a' then Panic("missing file for redirection")
    else ParseRedirs(s, f.next, rs + [Redir(if t.kind == '<' then Input else Output, Span(f.lo, f.hi))])
  }

  function ParseArgs(s: string, i: nat, argv: seq<Span>, rs: seq<Redir>): (r: Parsed<Cmd>)
    requires i <= |s|
    ensures r.Got? ==> i <= r.pos <= |s|
    decreases |s| - i
  {
    if Looks(s, i, "|)&;") then Got(Wrap(Exec(argv), rs), Skip(s, i)) else
    var t := GetToken(s, Skip(s, i));
    if t.kind == NUL then Got(Wrap(Exec(argv), rs), t.next)
    else if t.kind != 'a' then Panic("syntax")
    else if |argv| + 1 >= MAXARGS then Panic("too many args")
    else match ParseRedirs(s, t.next, rs)
      case Panic(m) => Panic(m)
      case Got(rs', j) => ParseArgs(s, j, argv + [Span(t.lo, t.hi)], rs')
  }

  function ParseExec(s: string, i: nat): (r: Parsed<Cmd>)
    requires i <= |s|
    ensures r.Got? ==> i <= r.pos <= |s|
    decreases |s| - i, 1
  {
    if Looks(s, i, "(") then ParseBlock(s, Skip(s, i))
    else match ParseRedirs(s, Skip(s, i), [])
      case Panic(m) => Panic(m)
      case Got(rs, j) => ParseArgs(s, j, [], rs)
  }

  function ParseBlock(s: string, i: nat): (r: Parsed<Cmd>)
    requires i <= |s|
    ensures r.Got? ==> i <= r.pos <= |s|
    decreases |s| - i, 0
  {
    if !Looks(s, i, "(") then Panic("parseblock") else
    var t := GetToken(s, Skip(s, i));
    match ParseLine(s, t.next)
    case Panic(m) => Panic(m)
    case Got(c, j) =>
      if !Looks(s, j, ")") then Panic("syntax - missing )")
      else match ParseRedirs(s, GetToken(s, Skip(s, j)).next, [])
        case Panic(m) => Panic(m)
        case Got(rs, k) => Got(Wrap(c, rs), k)
  }

  function ParsePipe(s: string, i: nat): (r: Parsed<Cmd>)
    requires i <= |s|
    ensures r.Got? ==> i <= r.pos <= |s|
    decreases |s| - i, 2
  {
    match ParseExec(s, i)
    case Panic(m) => Panic(m)
    case Got(c, j) =>
      if !Looks(s, j, "|") then Got(c, Skip(s, j))
      else match ParsePipe(s, GetToken(s, Skip(s, j)).next)
        case Panic(m) => Panic(m)
        case Got(d, k) => Got(Pipe(c, d), k)
  }

  function Backs(s: string, i: nat, c: Cmd): (r: (Cmd, nat))
    requires i <= |s|
    ensures i <= r.1 <= |s|
    decreases |s| - i
  {
    if Looks(s, i, "&") then Backs(s, GetToken(s, Skip(s, i)).next, Back(c)) else (c, Skip(s, i))
  }

  function ParseLine(s: string, i: nat): (r: Parsed<Cmd>)
    requires i <= |s|
    ensures r.Got? ==> i <= r.pos <= |s|
    decreases |s| - i, 3
  {
    match ParsePipe(s, i)
    case Panic(m) => Panic(m)
    case Got(c, j) =>
      var b := Backs(s, j, c);
      if !Looks(s, b.1, ";") then Got(b.0, Skip(s, b.1))
      else match ParseLine(s, GetToken(s, Skip(s, b.1)).next)
        case Panic(m) => Panic(m)
        case Got(d, k) => Got(List(b.0, d), k)
  }

  function ParseCmd(s: string): Parsed<Cmd> {
    match ParseLine(s, 0)
    case Panic(m) => Panic(m)
    case Got(c, j) => if Skip(s, j) != |s| then Panic("syntax") else Got(c, |s|)
  }

  // --------------------------------------------------------------- printing

  /** A command by its words rather than their places. */
  datatype Tree =
    | Run(args: seq<string>)
    | Redirected(cmd: Tree, way: Way, file: string)
    | Piped(left: Tree, right: Tree)
    | Listed(left: Tree, right: Tree)
    | Backed(cmd: Tree)

  function Text(s: string, w: Span): string {
    if w.lo <= w.hi <= |s| then s[w.lo..w.hi] else ""
  }

  function Texts(s: string, ws: seq<Span>): seq<string> {
    if ws == [] then [] else [Text(s, ws[0])] + Texts(s, ws[1..])
  }

  function Meaning(s: string, c: Cmd): Tree {
    match c
    case Exec(argv) => Run(Texts(s, argv))
    case Redirect(d, r) => Redirected(Meaning(s, d), r.way, Text(s, r.file))
    case Pipe(l, r) => Piped(Meaning(s, l), Meaning(s, r))
    case List(l, r) => Listed(Meaning(s, l), Meaning(s, r))
    case Back(d) => Backed(Meaning(s, d))
  }

  predicate ValidWord(w: string) {
    w != "" && forall k :: 0 <= k < |w| ==> w[k] != NUL && InWord(w[k])
  }

  predicate ValidTree(t: Tree) {
    match t
    case Run(args) => |args| < MAXARGS && forall k :: 0 <= k < |args| ==> ValidWord(args[k])
    case Redirected(c, _, f) => ValidTree(c) && ValidWord(f)
    case Piped(l, r) => ValidTree(l) && ValidTree(r)
    case Listed(l, r) => ValidTree(l) && ValidTree(r)
    case Backed(c) => ValidTree(c)
  }

  function PrintArgs(args: seq<string>): string {
    if args == [] then "" else if |args| == 1 then args[0] else args[0] + (" " + PrintArgs(args[1..]))
  }

  function Paren(t: Tree): string
    decreases t, 1
  {
    "(" + (Print(t) + ")")
  }

  /** Every operand in parentheses. */
  function Print(t: Tree): string
    decreases t, 0
  {
    match t
    case Run(args) => PrintArgs(args)
    case Redirected(c, way, f) => Paren(c) + ((if way == Input then "<" else ">") + f)
    case Piped(l, r) => Paren(l) + ("|" + Paren(r))
    case Listed(l, r) => Paren(l) + (";" + Paren(r))
    case Backed(c) => Paren(c) + "&"
  }

  // ------------------------------------------------------------- round trip

  /** The text x stands at i. */
  predicate Reads(s: string, i: nat, x: string) {
    i + |x| <= |s| && s[i..i + |x|] == x
  }

  lemma ReadsParts(s: string, i: nat, x: string, y: string)
    requires Reads(s, i, x + y)
    ensures Reads(s, i, x) && Reads(s, i + |x|, y)
  {
    assert s[i..i + |x|] == (x + y)[..|x|];
    assert s[i + |x|..i + |x| + |y|] == (x + y)[|x|..];
  }

  /** Where a printed command may end: at the end of the input or before a closing bracket. */
  predicate Stop(s: string, j: nat) {
    j == |s| || (j < |s| && s[j] == ')')
  }

  lemma {:induction false} WordEndIs(s: string, i: nat, j: nat)
    requires i <= j <= |s| && (forall k :: i <= k < j ==> InWord(s[k])) && (j < |s| ==> !InWord(s[j]))
    ensures WordEnd(s, i) == j
    decreases j - i
  {
    if i < j {
      WordEndIs(s, i + 1, j);
    }
  }

  lemma WordRead(s: string, i: nat, w: string)
    requires Reads(s, i, w) && ValidWord(w) && (i + |w| < |s| ==> !InWord(s[i + |w|]))
    ensures GetToken(s, i) == Token('a', i, i + |w|, Skip(s, i + |w|))
  {
    forall k | i <= k < i + |w|
      ensures s[k] != NUL && InWord(s[k])
    {
      assert s[k] == s[i..i + |w|][k - i];
    }
    WordEndIs(s, i, i + |w|);
  }

  function ArgSpans(args: seq<string>, i: nat): seq<Span> {
    if args == [] then [] else [Span(i, i + |args[0]|)] + ArgSpans(args[1..], i + |args[0]| + 1)
  }

  lemma StopsArgs(s: string, j: nat, argv: seq<Span>)
    requires Stop(s, j)
    ensures ParseArgs(s, j, argv, []) == Got(Exec(argv), j)
  {
  }

  /** Neither the start of a word nor a stop begins a redirection. */
  lemma NoRedirs(s: string, i: nat, rs: seq<Redir>)
    requires i <= |s| && !Space(At(s, i)) && At(s, i) != '<' && At(s, i) != '>'
    ensures ParseRedirs(s, i, rs) == Got(rs, i)
  {
  }

  lemma ArgStep(s: string, i: nat, j: nat, next: nat, argv: seq<Span>)
    requires i <= |s| && next <= |s| && At(s, i) != NUL && InWord(At(s, i)) && |argv| + 1 < MAXARGS
    requires GetToken(s, i) == Token('a', i, j, next) && ParseRedirs(s, next, []) == Got([], next)
    ensures ParseArgs(s, i, argv, []) == ParseArgs(s, next, argv + [Span(i, j)], [])
  {
    hide GetToken, ParseRedirs;
  }

  /** The token of an argument, and what stands where the parser goes on. */
  predicate ArgAt(s: string, i: nat, j: nat, next: nat) {
    && i <= |s| && next <= |s| && At(s, i) != NUL && InWord(At(s, i))
    && GetToken(s, i) == Token('a', i, j, next)
    && !Space(At(s, next)) && At(s, next) != '<' && At(s, next) != '>'
  }

  lemma LastArg(s: string, i: nat, w: string)
    requires Reads(s, i, w) && Stop(s, i + |w|) && ValidWord(w)
    ensures ArgAt(s, i, i + |w|, i + |w|)
  {
    hide GetToken;
    WordRead(s, i, w);
    FirstChar(s, i, w);
  }

  lemma InnerArg(s: string, i: nat, args: seq<string>)
    requires |args| > 1 && Reads(s, i, PrintArgs(args)) && ValidWord(args[0]) && ValidWord(args[1])
    ensures ArgAt(s, i, i + |args[0]|, i + |args[0]| + 1) && Reads(s, i + |args[0]| + 1, PrintArgs(args[1..]))
  {
    hide GetToken, Reads;
    var w, j := args[0], i + |args[0]|;
    ReadsParts(s, i, w, " " + PrintArgs(args[1..]));
    ReadsParts(s, j, " ", PrintArgs(args[1..]));
    NextArg(s, j, args[1..]);
    ReadsWithin(s, i, w);
    WordRead(s, i, w);
    FirstChar(s, i, w);
  }

  lemma ReadsWithin(s: string, i: nat, x: string)
    requires Reads(s, i, x)
    ensures i + |x| <= |s|
  {
  }

  /** One printed argument, whether or not another follows. */
  lemma ArgRead(s: string, i: nat, args: seq<string>)
    requires args != [] && Reads(s, i, PrintArgs(args)) && Stop(s, i + |PrintArgs(args)|)
    requires forall k :: 0 <= k < |args| ==> ValidWord(args[k])
    ensures var j := i + |args[0]|;
            var next := if |args| > 1 then j + 1 else j;
            && ArgAt(s, i, j, next)
            && Reads(s, next, PrintArgs(args[1..])) && next + |PrintArgs(args[1..])| == i + |PrintArgs(args)|
  {
    hide ArgAt;
    assert ValidWord(args[0]);
    if |args| > 1 {
      assert ValidWord(args[1]);
      InnerArg(s, i, args);
    } else {
      assert args[1..] == [];
      LastArg(s, i, args[0]);
    }
  }

  lemma {:induction false} ArgsParse(s: string, i: nat, args: seq<string>, argv: seq<Span>)
    requires Reads(s, i, PrintArgs(args)) && Stop(s, i + |PrintArgs(args)|)
    requires |argv| + |args| < MAXARGS && forall k :: 0 <= k < |args| ==> ValidWord(args[k])
    ensures ParseArgs(s, i, argv, []) == Got(Exec(argv + ArgSpans(args, i)), i + |PrintArgs(args)|)
    decreases |args|
  {
    hide ParseArgs, GetToken, ParseRedirs, InWord, Reads;
    if args == [] {
      StopsArgs(s, i, argv);
      assert argv + ArgSpans(args, i) == argv;
    } else {
      var j := i + |args[0]|;
      var next := if |args| > 1 then j + 1 else j;
      ArgRead(s, i, args);
      NoRedirs(s, next, []);
      ArgStep(s, i, j, next, argv);
      ArgsParse(s, next, args[1..], argv + [Span(i, j)]);
      SpansStep(args, i, argv);
    }
  }

  lemma SpansStep(args: seq<string>, i: nat, argv: seq<Span>)
    requires args != []
    ensures var j := i + |args[0]|;
            argv + ArgSpans(args, i) == argv + [Span(i, j)] + ArgSpans(args[1..], if |args| > 1 then j + 1 else j)
  {
    assert |args| == 1 ==> args[1..] == [];
  }

  lemma FirstChar(s: string, i: nat, w: string)
    requires Reads(s, i, w) && ValidWord(w)
    ensures At(s, i) != NUL && InWord(At(s, i))
  {
    assert s[i] == s[i..i + |w|][0];
  }

  /** After a blank comes the next argument. */
  lemma NextArg(s: string, j: nat, args: seq<string>)
    requires args != [] && ValidWord(args[0]) && Reads(s, j, " ") && Reads(s, j + 1, PrintArgs(args))
    ensures s[j] == ' ' && Skip(s, j) == j + 1 && At(s, j + 1) != NUL && InWord(At(s, j + 1))
  {
    assert s[j] == s[j..j + 1][0];
    if |args| > 1 {
      ReadsParts(s, j + 1, args[0], " " + PrintArgs(args[1..]));
    }
    FirstChar(s, j + 1, args[0]);
  }

  /** The parse of a command printed at i. */
  function Placed(t: Tree, i: nat): Cmd {
    match t
    case Run(args) => Exec(ArgSpans(args, i))
    case Redirected(c, way, f) =>
      var j := i + |Paren(c)| + 1;
      Redirect(Placed(c, i + 1), Redir(way, Span(j, j + |f|)))
    case Piped(l, r) => Pipe(Placed(l, i + 1), Placed(r, i + |Paren(l)| + 2))
    case Listed(l, r) => List(Placed(l, i + 1), Placed(r, i + |Paren(l)| + 2))
    case Backed(c) => Back(Placed(c, i + 1))
  }

  lemma {:induction false} ArgsMean(s: string, i: nat, args: seq<string>)
    requires Reads(s, i, PrintArgs(args))
    ensures Texts(s, ArgSpans(args, i)) == args
    decreases |args|
  {
    if args != [] {
      var ws := ArgSpans(args, i);
      assert ws[1..] == ArgSpans(args[1..], i + |args[0]| + 1);
      if |args| > 1 {
        ReadsParts(s, i, args[0], " " + PrintArgs(args[1..]));
        ReadsParts(s, i + |args[0]|, " ", PrintArgs(args[1..]));
        ArgsMean(s, i + |args[0]| + 1, args[1..]);
      } else {
        assert args[1..] == [];
      }
      assert args == [args[0]] + args[1..];
    }
  }

  lemma ParenParts(s: string, i: nat, t: Tree)
    requires Reads(s, i, Paren(t))
    ensures Reads(s, i, "(") && Reads(s, i + 1, Print(t)) && Reads(s, i + 1 + |Print(t)|, ")")
    ensures |Paren(t)| == |Print(t)| + 2 && s[i] == '(' && s[i + 1 + |Print(t)|] == ')'
  {
    ReadsParts(s, i, "(", Print(t) + ")");
    ReadsParts(s, i + 1, Print(t), ")");
    assert s[i] == s[i..i + 1][0];
    var j := i + 1 + |Print(t)|;
    assert s[j] == s[j..j + 1][0];
  }

  function Sign(way: Way): string {
    if way == Input then "<" else ">"
  }

  /** Where the parts of a printed command stand. */
  predicate PartsRead(s: string, i: nat, t: Tree) {
    match t
    case Run(args) => true
    case Redirected(c, way, f) =>
      var k := i + |Paren(c)|;
      Reads(s, i, Paren(c)) && Reads(s, i + 1, Print(c)) && k < |s| && s[k] == Sign(way)[0] && Reads(s, k + 1, f)
    case Piped(l, r) => OperandsRead(s, i, l, '|', r)
    case Listed(l, r) => OperandsRead(s, i, l, ';', r)
    case Backed(c) =>
      var k := i + |Paren(c)|;
      Reads(s, i, Paren(c)) && Reads(s, i + 1, Print(c)) && k < |s| && s[k] == '&'
  }

  predicate OperandsRead(s: string, i: nat, l: Tree, op: char, r: Tree) {
    var k := i + |Paren(l)|;
    && Reads(s, i, Paren(l)) && Reads(s, i + 1, Print(l))
    && k < |s| && s[k] == op && Reads(s, k + 1, Paren(r)) && Reads(s, k + 2, Print(r))
  }

  lemma OneRead(s: string, k: nat, c: char)
    requires Reads(s, k, [c])
    ensures k < |s| && s[k] == c
  {
    assert s[k] == s[k..k + 1][0];
  }

  lemma OperandParts(s: string, i: nat, l: Tree, op: char, r: Tree)
    requires Reads(s, i, Paren(l) + ([op] + Paren(r)))
    ensures OperandsRead(s, i, l, op, r)
  {
    hide Reads, Print, Paren;
    var k := i + |Paren(l)|;
    ReadsParts(s, i, Paren(l), [op] + Paren(r));
    ReadsParts(s, k, [op], Paren(r));
    OneRead(s, k, op);
    ParenParts(s, i, l);
    ParenParts(s, k + 1, r);
  }

  lemma Parts(s: string, i: nat, t: Tree)
    requires Reads(s, i, Print(t))
    ensures PartsRead(s, i, t)
  {
    hide Reads, Paren, OperandsRead;
    match t
    case Run(args) =>
    case Redirected(c, way, f) =>
      ReadsParts(s, i, Paren(c), Sign(way) + f);
      ReadsParts(s, i + |Paren(c)|, [Sign(way)[0]], f);
      OneRead(s, i + |Paren(c)|, Sign(way)[0]);
      ParenParts(s, i, c);
    case Piped(l, r) => OperandParts(s, i, l, '|', r);
    case Listed(l, r) => OperandParts(s, i, l, ';', r);
    case Backed(c) =>
      ReadsParts(s, i, Paren(c), ['&']);
      OneRead(s, i + |Paren(c)|, '&');
      ParenParts(s, i, c);
  }

  lemma {:induction false} MeansPrinted(s: string, i: nat, t: Tree)
    requires Reads(s, i, Print(t))
    ensures Meaning(s, Placed(t, i)) == t
    decreases t
  {
    hide Reads, Print, Paren;
    Parts(s, i, t);
    match t
    case Run(args) => RunMeans(s, i, args);
    case Redirected(c, way, f) =>
      MeansPrinted(s, i + 1, c);
      ReadsText(s, i + |Paren(c)| + 1, f);
    case Piped(l, r) =>
      MeansPrinted(s, i + 1, l);
      MeansPrinted(s, i + |Paren(l)| + 2, r);
    case Listed(l, r) =>
      MeansPrinted(s, i + 1, l);
      MeansPrinted(s, i + |Paren(l)| + 2, r);
    case Backed(c) =>
      MeansPrinted(s, i + 1, c);
  }

  lemma RunMeans(s: string, i: nat, args: seq<string>)
    requires Reads(s, i, Print(Run(args)))
    ensures Meaning(s, Placed(Run(args), i)) == Run(args)
  {
    ArgsMean(s, i, args);
  }

  lemma ReadsText(s: string, i: nat, x: string)
    requires Reads(s, i, x)
    ensures Text(s, Span(i, i + |x|)) == x
  {
  }

  // --- the parser on a printed command

  lemma LooksAt(s: string, i: nat, toks: string)
    requires i <= |s| && !Space(At(s, i))
    ensures Skip(s, i) == i && (Looks(s, i, toks) <==> At(s, i) != NUL && At(s, i) in toks)
  {
  }

  lemma SymbolRead(s: string, i: nat)
    requires i < |s| && Symbol(s[i]) && !Space(At(s, i + 1)) && (s[i] == '>' ==> At(s, i + 1) != '>')
    ensures GetToken(s, i) == Token(s[i], i, i + 1, i + 1) && Skip(s, i) == i
  {
  }

  lemma NotSpaced(s: string, i: nat, t: Tree)
    requires Reads(s, i, Print(t)) && ValidTree(t) && Stop(s, i + |Print(t)|)
    ensures !Space(At(s, i)) && i <= |s|
  {
    match t
    case Run(args) =>
      if args != [] {
        ArgRead(s, i, args);
      }
    case Redirected(c, _, _) =>
      Parts(s, i, t);
      ParenParts(s, i, c);
    case Piped(l, r) =>
      Parts(s, i, t);
      ParenParts(s, i, l);
    case Listed(l, r) =>
      Parts(s, i, t);
      ParenParts(s, i, l);
    case Backed(c) =>
      Parts(s, i, t);
      ParenParts(s, i, c);
  }

  /** A bracketed command that parses, up to its redirections. */
  lemma ParenParses(s: string, i: nat, t: Tree)
    requires Reads(s, i, Paren(t)) && ValidTree(t) && !Space(At(s, i + |Paren(t)|))
    requires i + 1 <= |s| && ParseLine(s, i + 1) == Got(Placed(t, i + 1), i + 1 + |Print(t)|)
    ensures i + |Paren(t)| <= |s|
    ensures ParseExec(s, i) == match ParseRedirs(s, i + |Paren(t)|, [])
                               case Panic(m) => Panic(m)
                               case Got(rs, k) => Got(Wrap(Placed(t, i + 1), rs), k)
  {
    hide ParseLine, ParseRedirs, Reads, Print, Placed, Paren, GetToken, Skip, Looks, Wrap;
    ParenParts(s, i, t);
    NotSpaced(s, i + 1, t);
    SymbolRead(s, i);
    LooksAt(s, i, "(");
    var j := i + 1 + |Print(t)|;
    SymbolRead(s, j);
    LooksAt(s, j, ")");
  }

  /** One that is followed by an operator or a stop is done. */
  lemma ParenDone(s: string, i: nat, t: Tree)
    requires Reads(s, i, Paren(t)) && ValidTree(t)
    requires i + 1 <= |s| && ParseLine(s, i + 1) == Got(Placed(t, i + 1), i + 1 + |Print(t)|)
    requires var c := At(s, i + |Paren(t)|); !Space(c) && c != '<' && c != '>'
    ensures i + |Paren(t)| <= |s| && ParseExec(s, i) == Got(Placed(t, i + 1), i + |Paren(t)|)
  {
    hide ParseLine, ParseExec, Reads, Print, Placed, Paren;
    ParenParses(s, i, t);
    NoRedirs(s, i + |Paren(t)|, []);
  }

  /** At a stop a line that holds only c is done. */
  lemma LineStops(s: string, i: nat, c: Cmd, j: nat)
    requires i <= j <= |s| && Stop(s, j) && ParsePipe(s, i) == Got(c, j)
    ensures ParseLine(s, i) == Got(c, j)
  {
    hide ParsePipe, Skip, Looks, GetToken;
    LooksAt(s, j, "&");
    LooksAt(s, j, ";");
  }

  lemma PipeStops(s: string, i: nat, c: Cmd, j: nat)
    requires i <= j <= |s| && !Space(At(s, j)) && At(s, j) != '|' && ParseExec(s, i) == Got(c, j)
    ensures ParsePipe(s, i) == Got(c, j)
  {
    hide ParseExec, Skip, Looks, GetToken;
    LooksAt(s, j, "|");
  }

  lemma RunParses(s: string, i: nat, args: seq<string>)
    requires ValidTree(Run(args)) && Reads(s, i, Print(Run(args))) && Stop(s, i + |Print(Run(args))|)
    ensures i <= |s| && ParseLine(s, i) == Got(Placed(Run(args), i), i + |Print(Run(args))|)
  {
    hide ParsePipe, ParseLine, ParseArgs, ParseRedirs, ParseBlock, Skip, Looks, GetToken, Wrap, ValidWord, Reads;
    if args != [] {
      ArgRead(s, i, args);
    }
    LooksAt(s, i, "(");
    NoRedirs(s, i, []);
    ArgsParse(s, i, args, []);
    assert [] + ArgSpans(args, i) == ArgSpans(args, i);
    var c, j := Placed(Run(args), i), i + |Print(Run(args))|;
    assert ParseExec(s, i) == Got(c, j);
    PipeStops(s, i, c, j);
    LineStops(s, i, c, j);
  }

  lemma RedirectParses(s: string, i: nat, t: Tree)
    requires t.Redirected? && ValidTree(t) && Reads(s, i, Print(t)) && Stop(s, i + |Print(t)|)
    requires i + 1 <= |s| && ParseLine(s, i + 1) == Got(Placed(t.cmd, i + 1), i + 1 + |Print(t.cmd)|)
    ensures ParseLine(s, i) == Got(Placed(t, i), i + |Print(t)|)
  {
    hide ParsePipe, ParseLine, ParseExec, Skip, Looks, GetToken, Reads, Paren;
    Parts(s, i, t);
    var k, j := i + |Paren(t.cmd)|, i + |Print(t)|;
    ParenParses(s, i, t.cmd);
    OneRedir(s, k, t.way, t.file);
    var r := Redir(t.way, Span(k + 1, j));
    assert [r][..0] == [];
    assert Wrap(Placed(t.cmd, i + 1), [r]) == Placed(t, i);
    PipeStops(s, i, Placed(t, i), j);
    LineStops(s, i, Placed(t, i), j);
  }

  lemma OneRedir(s: string, k: nat, way: Way, f: string)
    requires k < |s| && s[k] == Sign(way)[0] && Reads(s, k + 1, f) && ValidWord(f) && Stop(s, k + 1 + |f|)
    ensures ParseRedirs(s, k, []) == Got([Redir(way, Span(k + 1, k + 1 + |f|))], k + 1 + |f|)
  {
    hide Skip, Looks, GetToken;
    FirstChar(s, k + 1, f);
    SymbolRead(s, k);
    LooksAt(s, k, "<>");
    WordRead(s, k + 1, f);
    var r := Redir(way, Span(k + 1, k + 1 + |f|));
    assert [] + [r] == [r];
    LooksAt(s, k + 1 + |f|, "<>");
    NoRedirs(s, k + 1 + |f|, [r]);
  }

  lemma BackParses(s: string, i: nat, t: Tree)
    requires t.Backed? && ValidTree(t) && Reads(s, i, Print(t)) && Stop(s, i + |Print(t)|)
    requires i + 1 <= |s| && ParseLine(s, i + 1) == Got(Placed(t.cmd, i + 1), i + 1 + |Print(t.cmd)|)
    ensures ParseLine(s, i) == Got(Placed(t, i), i + |Print(t)|)
  {
    hide ParsePipe, ParseExec, Skip, Looks, GetToken, Reads, Paren;
    Parts(s, i, t);
    var k := i + |Paren(t.cmd)|;
    ParenDone(s, i, t.cmd);
    PipeStops(s, i, Placed(t.cmd, i + 1), k);
    SymbolRead(s, k);
    LooksAt(s, k, "&");
    LooksAt(s, k + 1, "&");
    LooksAt(s, k + 1, ";");
    assert Backs(s, k, Placed(t.cmd, i + 1)) == Backs(s, k + 1, Placed(t, i)) == (Placed(t, i), k + 1);
  }

  lemma PipeParses(s: string, i: nat, t: Tree)
    requires t.Piped? && ValidTree(t) && Reads(s, i, Print(t)) && Stop(s, i + |Print(t)|)
    requires i + 1 <= |s| && ParseLine(s, i + 1) == Got(Placed(t.left, i + 1), i + 1 + |Print(t.left)|)
    requires var m := i + |Paren(t.left)| + 2;
             m <= |s| && ParseLine(s, m) == Got(Placed(t.right, m), m + |Print(t.right)|)
    ensures ParseLine(s, i) == Got(Placed(t, i), i + |Print(t)|)
  {
    hide ParseLine, ParseExec, Skip, Looks, GetToken, Reads;
    Parts(s, i, t);
    var k, j := i + |Paren(t.left)|, i + |Print(t)|;
    ParenDone(s, i, t.left);
    ParenParts(s, k + 1, t.right);
    SymbolRead(s, k);
    LooksAt(s, k, "|");
    ParenDone(s, k + 1, t.right);
    PipeStops(s, k + 1, Placed(t.right, k + 2), j);
    LineStops(s, i, Placed(t, i), j);
  }

  lemma ListStep(s: string, i: nat, c: Cmd, k: nat, d: Cmd, j: nat)
    requires i <= k < |s| && s[k] == ';' && !Space(At(s, k + 1))
    requires ParsePipe(s, i) == Got(c, k) && ParseLine(s, k + 1) == Got(d, j)
    ensures ParseLine(s, i) == Got(List(c, d), j)
  {
    hide ParsePipe, Skip, Looks, GetToken;
    SymbolRead(s, k);
    LooksAt(s, k, "&");
    LooksAt(s, k, ";");
  }

  lemma ListParses(s: string, i: nat, t: Tree)
    requires t.Listed? && ValidTree(t) && Reads(s, i, Print(t)) && Stop(s, i + |Print(t)|)
    requires i + 1 <= |s| && ParseLine(s, i + 1) == Got(Placed(t.left, i + 1), i + 1 + |Print(t.left)|)
    requires var m := i + |Paren(t.left)| + 2;
             m <= |s| && ParseLine(s, m) == Got(Placed(t.right, m), m + |Print(t.right)|)
    ensures ParseLine(s, i) == Got(Placed(t, i), i + |Print(t)|)
  {
    hide ParsePipe, ParseExec, ParseLine, Skip, Looks, GetToken, Reads;
    Parts(s, i, t);
    var k, j := i + |Paren(t.left)|, i + |Print(t)|;
    ParenDone(s, i, t.left);
    PipeStops(s, i, Placed(t.left, i + 1), k);
    ParenParts(s, k + 1, t.right);
    ParenDone(s, k + 1, t.right);
    PipeStops(s, k + 1, Placed(t.right, k + 2), j);
    LineStops(s, k + 1, Placed(t.right, k + 2), j);
    ListStep(s, i, Placed(t.left, i + 1), k, Placed(t.right, k + 2), j);
  }

  lemma Inside(s: string, i: nat, t: Tree)
    requires Reads(s, i, Paren(t))
    ensures Reads(s, i + 1, Print(t)) && Stop(s, i + 1 + |Print(t)|) && i + 1 <= |s|
  {
    hide Reads, Print;
    ParenParts(s, i, t);
  }

  /** A printed command parses to itself wherever it stands before a stop. */
  lemma {:induction false} LineParses(s: string, i: nat, t: Tree)
    requires ValidTree(t) && Reads(s, i, Print(t)) && Stop(s, i + |Print(t)|)
    ensures i <= |s| && ParseLine(s, i) == Got(Placed(t, i), i + |Print(t)|)
    decreases t, 1
  {
    hide ParseLine, Placed, Reads, Print, Paren, Stop;
    Parts(s, i, t);
    match t
    case Run(args) => RunParses(s, i, args);
    case Redirected(c, _, _) =>
      Inside(s, i, c);
      LineParses(s, i + 1, c);
      RedirectParses(s, i, t);
    case Piped(l, r) =>
      OperandsParse(s, i, t, l, '|', r);
      PipeParses(s, i, t);
    case Listed(l, r) =>
      OperandsParse(s, i, t, l, ';', r);
      ListParses(s, i, t);
    case Backed(c) =>
      Inside(s, i, c);
      LineParses(s, i + 1, c);
      BackParses(s, i, t);
  }

  lemma {:induction false} OperandsParse(s: string, i: nat, t: Tree, l: Tree, op: char, r: Tree)
    requires t == Piped(l, r) || t == Listed(l, r)
    requires ValidTree(l) && ValidTree(r) && OperandsRead(s, i, l, op, r)
    ensures i + 1 <= |s| && ParseLine(s, i + 1) == Got(Placed(l, i + 1), i + 1 + |Print(l)|)
    ensures var m := i + |Paren(l)| + 2;
            m <= |s| && ParseLine(s, m) == Got(Placed(r, m), m + |Print(r)|)
    decreases t, 0
  {
    hide ParseLine, Placed, Reads, Print, Paren, Stop, ValidTree;
    Inside(s, i, l);
    LineParses(s, i + 1, l);
    Inside(s, i + |Paren(l)| + 1, r);
    LineParses(s, i + |Paren(l)| + 2, r);
  }

  /** Parsing a printed command gives the command back. */
  lemma RoundTrip(t: Tree)
    requires ValidTree(t)
    ensures ParseCmd(Print(t)).Got? && Meaning(Print(t), ParseCmd(Print(t)).value) == t
  {
    hide ParseLine, Placed, Print;
    var s := Print(t);
    assert s[0..0 + |s|] == s;
    LineParses(s, 0, t);
    MeansPrinted(s, 0, t);
  }

  // ------------------------------------------------------------------ words

  /** A maximal run of word characters. */
  predicate IsWord(s: string, w: Span) {
    && w.lo < w.hi <= |s| && (forall k :: w.lo <= k < w.hi ==> InWord(s[k]))
    && (w.lo > 0 ==> !InWord(s[w.lo - 1])) && (w.hi < |s| ==> !InWord(s[w.hi]))
  }

  /** A word that starts between i and j. */
  predicate WordIn(s: string, i: nat, j: nat, w: Span) {
    IsWord(s, w) && i <= w.lo < j
  }

  /** w is an argument or a file name of c. */
  predicate Says(c: Cmd, w: Span) {
    match c
    case Exec(argv) => w in argv
    case Redirect(d, r) => Says(d, w) || r.file == w
    case Pipe(l, r) => Says(l, w) || Says(r, w)
    case List(l, r) => Says(l, w) || Says(r, w)
    case Back(d) => Says(d, w)
  }

  predicate InFiles(rs: seq<Redir>, w: Span) {
    exists r :: r in rs && r.file == w
  }

  /** Position i is not inside a word. */
  predicate Outside(s: string, i: nat) {
    0 < i < |s| && InWord(s[i]) ==> !InWord(s[i - 1])
  }

  lemma WordsJoin(s: string, i: nat, j: nat, k: nat, w: Span)
    requires i <= j <= k
    ensures WordIn(s, i, k, w) <==> WordIn(s, i, j, w) || WordIn(s, j, k, w)
  {
  }

  lemma {:induction false} SkipWords(s: string, i: nat)
    requires i <= |s| && Outside(s, i)
    ensures Skip(s, i) > i ==> Space(s[Skip(s, i) - 1])
    ensures Outside(s, Skip(s, i)) && forall w :: !WordIn(s, i, Skip(s, i), w)
    decreases |s| - i
  {
    if i < |s| && Space(s[i]) {
      SkipWords(s, i + 1);
      forall w
        ensures !WordIn(s, i, Skip(s, i), w)
      {
        WordsJoin(s, i, i + 1, Skip(s, i), w);
      }
    }
  }

  /** The characters of a token hold its word, if it is one, and no other. */
  lemma TokenItself(s: string, i: nat, w: Span)
    requires i <= |s| && NUL !in s && Outside(s, Skip(s, i))
    ensures var t := GetToken(s, i);
            && (t.kind != NUL ==> Outside(s, t.hi))
            && (WordIn(s, t.lo, t.hi, w) <==> t.kind == 'a' && w == Span(t.lo, t.hi))
  {
    hide Skip;
  }

  /** A token is passed over with exactly its own word. */
  lemma TokenWords(s: string, i: nat)
    requires i <= |s| && Outside(s, i) && NUL !in s
    ensures var t := GetToken(s, i);
            && Outside(s, t.next)
            && forall w :: WordIn(s, i, t.next, w) <==> t.kind == 'a' && w == Span(t.lo, t.hi)
  {
    hide WordEnd, IsWord, Outside, Skip;
    var t := GetToken(s, i);
    SkipWords(s, i);
    TokenItself(s, i, Span(t.lo, t.hi));
    if t.kind != NUL {
      SkipWords(s, t.hi);
    }
    forall w
      ensures WordIn(s, i, t.next, w) <==> t.kind == 'a' && w == Span(t.lo, t.hi)
    {
      TokenItself(s, i, w);
      WordsJoin(s, i, t.lo, t.next, w);
      WordsJoin(s, t.lo, t.hi, t.next, w);
    }
  }

  /** Looking ahead for a token and taking it passes over exactly its word. */
  lemma NextWords(s: string, i: nat)
    requires i <= |s| && Outside(s, i) && NUL !in s
    ensures var t := GetToken(s, Skip(s, i));
            && i <= t.next && Outside(s, t.next)
            && forall w :: WordIn(s, i, t.next, w) <==> t.kind == 'a' && w == Span(t.lo, t.hi)
  {
    SkipWords(s, i);
    TokenWords(s, Skip(s, i));
    var t := GetToken(s, Skip(s, i));
    hide GetToken, Skip, IsWord;
    forall w
      ensures WordIn(s, i, t.next, w) <==> WordIn(s, i, Skip(s, i), w) || WordIn(s, Skip(s, i), t.next, w)
    {
      WordsJoin(s, i, Skip(s, i), t.next, w);
    }
  }

  /** What a parse from i to j says beyond `before`: exactly the words in between. */
  lemma {:induction false} RedirsSay(s: string, i: nat, rs: seq<Redir>)
    requires i <= |s| && Outside(s, i) && NUL !in s && ParseRedirs(s, i, rs).Got?
    ensures var r := ParseRedirs(s, i, rs);
            Outside(s, r.pos) && forall w :: InFiles(r.value, w) <==> InFiles(rs, w) || WordIn(s, i, r.pos, w)
    decreases |s| - i
  {
    hide GetToken, Skip, IsWord, Outside;
    if !Looks(s, i, "<>") {
      SkipWords(s, i);
    } else {
      NextWords(s, i);
      var t := GetToken(s, Skip(s, i));
      TokenWords(s, t.next);
      var f := GetToken(s, t.next);
      var more := rs + [Redir(if t.kind == '<' then Input else Output, Span(f.lo, f.hi))];
      RedirsSay(s, f.next, more);
      SignIsNoWord(s, i);
      forall w
        ensures InFiles(more, w) <==> InFiles(rs, w) || WordIn(s, i, f.next, w)
      {
        MoreFiles(rs, more[|rs|], w);
        WordsJoin(s, i, t.next, f.next, w);
      }
      var r := ParseRedirs(s, f.next, more);
      forall w
        ensures WordIn(s, i, r.pos, w) <==> WordIn(s, i, f.next, w) || WordIn(s, f.next, r.pos, w)
      {
        WordsJoin(s, i, f.next, r.pos, w);
      }
    }
  }

  lemma MoreFiles(rs: seq<Redir>, r: Redir, w: Span)
    ensures InFiles(rs + [r], w) <==> InFiles(rs, w) || r.file == w
  {
    assert (rs + [r])[|rs|] == r;
  }

  /** The next token is a symbol if the character ahead is one of the given symbols. */
  lemma SymbolAhead(s: string, i: nat, toks: string)
    requires i <= |s| && Looks(s, i, toks) && forall c :: c in toks ==> Symbol(c)
    ensures var t := GetToken(s, Skip(s, i)); t.kind != 'a' && t.next > i
  {
  }

  lemma SignIsNoWord(s: string, i: nat)
    requires i <= |s| && Looks(s, i, "<>")
    ensures GetToken(s, Skip(s, i)).kind != 'a'
  {
    SymbolAhead(s, i, "<>");
  }

  lemma {:induction false} WrapSays(c: Cmd, rs: seq<Redir>, w: Span)
    ensures Says(Wrap(c, rs), w) <==> Says(c, w) || InFiles(rs, w)
    decreases |rs|
  {
    if rs != [] {
      var n := |rs| - 1;
      WrapSays(c, rs[..n], w);
      MoreFiles(rs[..n], rs[n], w);
      assert rs == rs[..n] + [rs[n]];
    }
  }

  lemma {:induction false} ArgsSay(s: string, i: nat, argv: seq<Span>, rs: seq<Redir>)
    requires i <= |s| && Outside(s, i) && NUL !in s && ParseArgs(s, i, argv, rs).Got?
    ensures var r := ParseArgs(s, i, argv, rs);
            && Outside(s, r.pos)
            && forall w :: Says(r.value, w) <==> w in argv || InFiles(rs, w) || WordIn(s, i, r.pos, w)
    decreases |s| - i
  {
    hide GetToken, Skip, IsWord, Outside, ParseRedirs, Looks, Wrap;
    SkipWords(s, i);
    NextWords(s, i);
    var t := GetToken(s, Skip(s, i));
    if Looks(s, i, "|)&;") || t.kind == NUL {
      forall w
        ensures Says(Wrap(Exec(argv), rs), w) <==> w in argv || InFiles(rs, w)
      {
        WrapSays(Exec(argv), rs, w);
      }
    } else {
      var d := ParseRedirs(s, t.next, rs);
      RedirsSay(s, t.next, rs);
      var more := argv + [Span(t.lo, t.hi)];
      ArgsSay(s, d.pos, more, d.value);
      var r := ParseArgs(s, d.pos, more, d.value);
      forall w
        ensures WordIn(s, i, r.pos, w) <==>
                  WordIn(s, i, t.next, w) || WordIn(s, t.next, d.pos, w) || WordIn(s, d.pos, r.pos, w)
      {
        WordsJoin(s, i, t.next, d.pos, w);
        WordsJoin(s, i, d.pos, r.pos, w);
      }
    }
  }

  /** The command says exactly the words from i to j. */
  ghost predicate SaysAll(s: string, i: nat, r: Parsed<Cmd>) {
    r.Got? ==> Outside(s, r.pos) && forall w :: Says(r.value, w) <==> WordIn(s, i, r.pos, w)
  }

  /** So do two in a row, with symbols between them. */
  lemma Together(s: string, i: nat, j: nat, k: nat, m: nat, l: Cmd, r: Cmd)
    requires i <= j <= k <= m
    requires (forall w :: Says(l, w) <==> WordIn(s, i, j, w)) && (forall w :: Says(r, w) <==> WordIn(s, k, m, w))
    requires forall w :: !WordIn(s, j, k, w)
    ensures forall w :: Says(l, w) || Says(r, w) <==> WordIn(s, i, m, w)
  {
    hide Says, IsWord;
    forall w
      ensures WordIn(s, i, m, w) <==> WordIn(s, i, j, w) || WordIn(s, j, k, w) || WordIn(s, k, m, w)
    {
      WordsJoin(s, i, j, k, w);
      WordsJoin(s, i, k, m, w);
    }
  }

  lemma {:induction false} ExecSays(s: string, i: nat)
    requires i <= |s| && Outside(s, i) && NUL !in s
    ensures SaysAll(s, i, ParseExec(s, i))
    decreases |s| - i, 1
  {
    hide GetToken, IsWord, Outside, ParseRedirs, ParseArgs, Looks, Skip;
    SkipWords(s, i);
    var j := Skip(s, i);
    if Looks(s, i, "(") {
      LooksAfter(s, i, "(");
      BlockSays(s, j);
      forall k, w | j <= k
        ensures WordIn(s, i, k, w) <==> WordIn(s, j, k, w)
      {
        WordsJoin(s, i, j, k, w);
      }
    } else {
      var d := ParseRedirs(s, j, []);
      if d.Got? && ParseArgs(s, d.pos, [], d.value).Got? {
        var r := ParseArgs(s, d.pos, [], d.value);
        RedirsSay(s, j, []);
        ArgsSay(s, d.pos, [], d.value);
        forall w
          ensures WordIn(s, i, r.pos, w) <==> WordIn(s, j, d.pos, w) || WordIn(s, d.pos, r.pos, w)
        {
          WordsJoin(s, i, j, r.pos, w);
          WordsJoin(s, j, d.pos, r.pos, w);
        }
      }
    }
  }

  lemma LooksAfter(s: string, i: nat, toks: string)
    requires i <= |s|
    ensures Looks(s, Skip(s, i), toks) <==> Looks(s, i, toks)
  {
  }

  /** Passing a symbol that is ahead passes no word. */
  lemma PassSymbol(s: string, i: nat, toks: string)
    requires i <= |s| && Outside(s, i) && NUL !in s && Looks(s, i, toks) && forall c :: c in toks ==> Symbol(c)
    ensures var t := GetToken(s, Skip(s, i)); t.next > i && Outside(s, t.next) && forall w :: !WordIn(s, i, t.next, w)
  {
    hide GetToken, Skip, IsWord, Outside, Looks;
    NextWords(s, i);
    SymbolAhead(s, i, toks);
  }

  lemma {:induction false} BlockSays(s: string, i: nat)
    requires i <= |s| && Outside(s, i) && NUL !in s && Looks(s, i, "(")
    ensures SaysAll(s, i, ParseBlock(s, i))
    decreases |s| - i, 0
  {
    hide GetToken, IsWord, Outside, ParseRedirs, ParseLine, Looks, Skip, Wrap;
    PassSymbol(s, i, "(");
    var open := GetToken(s, Skip(s, i)).next;
    LineSays(s, open);
    var line := ParseLine(s, open);
    if line.Got? && Looks(s, line.pos, ")") {
      PassSymbol(s, line.pos, ")");
      var shut := GetToken(s, Skip(s, line.pos)).next;
      var d := ParseRedirs(s, shut, []);
      if d.Got? {
        RedirsSay(s, shut, []);
        forall w
          ensures Says(Wrap(line.value, d.value), w) <==> WordIn(s, i, d.pos, w)
        {
          WrapSays(line.value, d.value, w);
          WordsJoin(s, i, open, line.pos, w);
          WordsJoin(s, i, line.pos, shut, w);
          WordsJoin(s, i, shut, d.pos, w);
        }
      }
    }
  }

  lemma {:induction false} PipeSays(s: string, i: nat)
    requires i <= |s| && Outside(s, i) && NUL !in s
    ensures SaysAll(s, i, ParsePipe(s, i))
    decreases |s| - i, 2
  {
    hide GetToken, IsWord, Outside, ParseExec, Looks, Skip;
    ExecSays(s, i);
    var c := ParseExec(s, i);
    if c.Got? {
      SkipWords(s, c.pos);
      if Looks(s, c.pos, "|") {
        PassSymbol(s, c.pos, "|");
        var k := GetToken(s, Skip(s, c.pos)).next;
        PipeSays(s, k);
        var d := ParsePipe(s, k);
        if d.Got? {
          Together(s, i, c.pos, k, d.pos, c.value, d.value);
        }
      } else {
        Trailing(s, i, c.value, c.pos);
      }
    }
  }

  /** Blanks after a command add no word. */
  lemma Trailing(s: string, i: nat, c: Cmd, j: nat)
    requires i <= j <= |s| && Outside(s, j) && forall w :: Says(c, w) <==> WordIn(s, i, j, w)
    ensures Outside(s, Skip(s, j)) && forall w :: Says(c, w) <==> WordIn(s, i, Skip(s, j), w)
  {
    hide Says, IsWord, Skip, Outside;
    SkipWords(s, j);
    forall w
      ensures WordIn(s, i, Skip(s, j), w) <==> WordIn(s, i, j, w)
    {
      WordsJoin(s, i, j, Skip(s, j), w);
    }
  }

  lemma {:induction false} BacksSay(s: string, i: nat, j: nat, c: Cmd)
    requires i <= j <= |s| && Outside(s, j) && NUL !in s && forall w :: Says(c, w) <==> WordIn(s, i, j, w)
    ensures var b := Backs(s, j, c);
            Outside(s, b.1) && forall w :: Says(b.0, w) <==> WordIn(s, i, b.1, w)
    decreases |s| - j
  {
    hide GetToken, IsWord, Outside, Looks, Skip;
    if Looks(s, j, "&") {
      PassSymbol(s, j, "&");
      var k := GetToken(s, Skip(s, j)).next;
      forall w
        ensures Says(Back(c), w) <==> WordIn(s, i, k, w)
      {
        WordsJoin(s, i, j, k, w);
      }
      BacksSay(s, i, k, Back(c));
    } else {
      Trailing(s, i, c, j);
    }
  }

  lemma {:induction false} LineSays(s: string, i: nat)
    requires i <= |s| && Outside(s, i) && NUL !in s
    ensures SaysAll(s, i, ParseLine(s, i))
    decreases |s| - i, 3
  {
    hide GetToken, IsWord, Outside, ParsePipe, Looks, Skip, Backs;
    PipeSays(s, i);
    var c := ParsePipe(s, i);
    if c.Got? {
      BacksSay(s, i, c.pos, c.value);
      var b := Backs(s, c.pos, c.value);
      if Looks(s, b.1, ";") {
        PassSymbol(s, b.1, ";");
        var k := GetToken(s, Skip(s, b.1)).next;
        LineSays(s, k);
        var d := ParseLine(s, k);
        if d.Got? {
          Together(s, i, b.1, k, d.pos, b.0, d.value);
        }
      } else {
        Trailing(s, i, b.0, b.1);
      }
    }
  }

  /** On every input that parses, the arguments and file names of the command are exactly the
      words of the input: none is dropped, made up or cut short. */
  lemma SaysExactlyItsWords(s: string, w: Span)
    requires NUL !in s && ParseCmd(s).Got?
    ensures Says(ParseCmd(s).value, w) <==> IsWord(s, w)
  {
    hide ParseLine, Says;
    LineSays(s, 0);
    Trailing(s, 0, ParseLine(s, 0).value, ParseLine(s, 0).pos);
  }
}
