/** A line the parser accepts is used up by its tree: every token of the line is one of the tree's
    or one of a pair of parentheses, none is dropped, repeated or made up.
 */
module ShellTokens {
  import opened ShellGrammar

  datatype Tok = Sym(kind: char) | Txt(word: Range)

  function TokOf(t: Token): Tok {
    if t.kind == 'a' then Txt(Range(t.q, t.eq)) else Sym(t.kind)
  }

  /** What tokens weigh. Counting one kind of token is weighing it 1 and the others 0. */
  type Weight = Tok -> int

  /** The tokens of s from pos on. */
  function Left(f: Weight, s: string, pos: nat): int
    requires pos <= |s|
    decreases |s| - pos
  {
    var t := TokenAt(s, pos);
    if t.kind == '\0' then 0 else f(TokOf(t)) + Left(f, s, t.next)
  }

  function Words(f: Weight, argv: seq<Range>): int {
    if argv == [] then 0 else f(Txt(argv[0])) + Words(f, argv[1..])
  }

  function CharOf(kind: Kind): char {
    match kind case Input => '<' case Output => '>' case Append => '+'
  }

  function RedirToks(f: Weight, rd: Redirection<Range>): int {
    f(Sym(CharOf(rd.kind))) + f(Txt(rd.file))
  }

  function RedirsToks(f: Weight, rds: seq<Redirection<Range>>): int {
    if rds == [] then 0 else RedirToks(f, rds[0]) + RedirsToks(f, rds[1..])
  }

  /** The tokens a tree is written with, apart from parentheses. */
  function TreeToks(f: Weight, cmd: Cmd<Range>): int {
    match cmd
    case Exec(argv) => Words(f, argv)
    case Redir(c, rd) => TreeToks(f, c) + RedirToks(f, rd)
    case Pipe(l, r) => TreeToks(f, l) + f(Sym('|')) + TreeToks(f, r)
    case List(l, r) => TreeToks(f, l) + f(Sym(';')) + TreeToks(f, r)
    case Back(c) => TreeToks(f, c) + f(Sym('&'))
  }

  predicate Cancels(f: Weight) { f(Sym('(')) + f(Sym(')')) == 0 }

  /** A redirection of the tree stands in the line as a symbol and the word after it. */
  ghost predicate Written(s: string, rd: Redirection<Range>) {
    exists pos: nat | pos <= |s| ::
      var t := TokenAt(s, pos);
      t.kind == CharOf(rd.kind) && TokenAt(s, t.next).kind == 'a' && TokOf(TokenAt(s, t.next)) == Txt(rd.file)
  }

  ghost predicate AllWritten(s: string, rds: seq<Redirection<Range>>) {
    forall k | 0 <= k < |rds| :: Written(s, rds[k])
  }

  /** No command has more words than fit, and the redirections are where they are written. */
  ghost predicate Sound(s: string, cmd: Cmd<Range>) {
    match cmd
    case Exec(argv) => |argv| < MAXARGS
    case Redir(c, rd) => Sound(s, c) && Written(s, rd)
    case Pipe(l, r) => Sound(s, l) && Sound(s, r)
    case List(l, r) => Sound(s, l) && Sound(s, r)
    case Back(c) => Sound(s, c)
  }

  // --- tokens and positions ---

  lemma {:induction false} SkipTwice(s: string, pos: nat)
    requires pos <= |s|
    ensures SkipWs(s, SkipWs(s, pos)) == SkipWs(s, pos)
    decreases |s| - pos
  {
    if pos < |s| && Ws(s[pos]) {
      SkipTwice(s, pos + 1);
    }
  }

  lemma TokenSkips(s: string, pos: nat)
    requires pos <= |s|
    ensures TokenAt(s, SkipWs(s, pos)) == TokenAt(s, pos)
  {
    hide SkipWs, WordEnd;
    SkipTwice(s, pos);
  }

  lemma LeftSkip(f: Weight, s: string, pos: nat)
    requires pos <= |s|
    ensures Left(f, s, SkipWs(s, pos)) == Left(f, s, pos)
  {
    hide TokenAt, SkipWs;
    TokenSkips(s, pos);
  }

  /** A symbol that was peeked is the next token. */
  lemma LeftPeeked(f: Weight, s: string, pos: nat, toks: string)
    requires pos <= |s| && PeekIn(s, pos, toks) && forall c | c in toks :: c in "|();&<>"
    ensures var t := TokenAt(s, pos); t.kind != 'a' && Left(f, s, pos) == f(Sym(t.kind)) + Left(f, s, t.next)
    ensures TokenAt(s, pos).kind == s[SkipWs(s, pos)] || (s[SkipWs(s, pos)] == '>' && TokenAt(s, pos).kind == '+')
  {
  }

  lemma LeftNext(f: Weight, s: string, pos: nat)
    requires pos <= |s| && TokenAt(s, pos).kind != '\0'
    ensures Left(f, s, pos) == f(TokOf(TokenAt(s, pos))) + Left(f, s, TokenAt(s, pos).next)
  {
  }

  lemma LeftNone(f: Weight, s: string, pos: nat)
    requires pos <= |s|
    ensures TokenAt(s, pos).kind == '\0' ==> Left(f, s, pos) == 0 && SkipWs(s, pos) == |s|
    ensures SkipWs(s, pos) == |s| ==> Left(f, s, pos) == 0
  {
  }

  // --- what each part of the parser uses up ---

  lemma {:induction false} RedirsAdd(f: Weight, a: seq<Redirection<Range>>, b: seq<Redirection<Range>>)
    ensures RedirsToks(f, a + b) == RedirsToks(f, a) + RedirsToks(f, b)
    decreases |a|
  {
    if a == [] {
      assert a + b == b;
    } else {
      RedirsAdd(f, a[1..], b);
      assert (a + b)[1..] == a[1..] + b;
    }
  }

  lemma {:induction false} WrapToks(f: Weight, cmd: Cmd<Range>, rds: seq<Redirection<Range>>)
    ensures TreeToks(f, Wrap(cmd, rds)) == TreeToks(f, cmd) + RedirsToks(f, rds)
    decreases |rds|
  {
    if rds != [] {
      var init, last := rds[..|rds| - 1], rds[|rds| - 1];
      WrapToks(f, cmd, init);
      RedirsAdd(f, init, [last]);
      assert init + [last] == rds;
      assert RedirsToks(f, [last]) == RedirToks(f, last) + RedirsToks(f, []);
    }
  }

  lemma {:induction false} WrapSound(s: string, cmd: Cmd<Range>, rds: seq<Redirection<Range>>)
    requires Sound(s, cmd) && AllWritten(s, rds)
    ensures Sound(s, Wrap(cmd, rds))
    decreases |rds|
  {
    if rds != [] {
      WrapSound(s, cmd, rds[..|rds| - 1]);
    }
  }

  lemma {:induction false} RedirsUse(f: Weight, s: string, pos: nat)
    requires pos <= |s|
    ensures var r := ParseRedirs(s, pos);
            r.Ok? ==> Left(f, s, pos) == RedirsToks(f, r.v) + Left(f, s, r.pos) && AllWritten(s, r.v)
    decreases |s| - pos
  {
    hide TokenAt, PeekIn, Left, SkipWs, Written;
    if PeekIn(s, pos, "<>") {
      var t := TokenAt(s, pos);
      var w := TokenAt(s, t.next);
      if w.kind == 'a' {
        RedirsUse(f, s, w.next);
        var rest := ParseRedirs(s, w.next);
        if rest.Ok? {
          RedirSeen(f, s, pos);
          RedirFirst(f, Redirection(KindOf(t.kind), Range(w.q, w.eq)), rest.v);
        }
      }
    } else {
      LeftSkip(f, s, pos);
    }
  }

  lemma RedirFirst(f: Weight, rd: Redirection<Range>, rds: seq<Redirection<Range>>)
    ensures RedirsToks(f, [rd] + rds) == RedirToks(f, rd) + RedirsToks(f, rds)
  {
    assert ([rd] + rds)[1..] == rds;
  }

  lemma RedirSeen(f: Weight, s: string, pos: nat)
    requires pos <= |s| && PeekIn(s, pos, "<>") && TokenAt(s, TokenAt(s, pos).next).kind == 'a'
    ensures var t := TokenAt(s, pos);
            var w := TokenAt(s, t.next);
            var rd := Redirection(KindOf(t.kind), Range(w.q, w.eq));
            Left(f, s, pos) == RedirToks(f, rd) + Left(f, s, w.next) && Written(s, rd)
  {
    var t := TokenAt(s, pos);
    var w := TokenAt(s, t.next);
    var rd := Redirection(KindOf(t.kind), Range(w.q, w.eq));
    LeftPeeked(f, s, pos, "<>");
    assert CharOf(KindOf(t.kind)) == t.kind;
    LeftNext(f, s, t.next);
    assert Written(s, rd);
  }

  lemma NoToks(f: Weight)
    ensures Words(f, []) == 0 && RedirsToks(f, []) == 0
  {
  }

  lemma WordFirst(f: Weight, w: Range, argv: seq<Range>)
    ensures Words(f, [w] + argv) == f(Txt(w)) + Words(f, argv)
  {
    assert ([w] + argv)[1..] == argv;
  }

  lemma {:induction false} ArgsUse(f: Weight, s: string, pos: nat, argc: nat)
    requires pos <= |s| && argc < MAXARGS
    ensures var r := ParseArgs(s, pos, argc);
            r.Ok? ==> && Left(f, s, pos) == Words(f, r.v.argv) + RedirsToks(f, r.v.rds) + Left(f, s, r.pos)
                      && AllWritten(s, r.v.rds) && argc + |r.v.argv| < MAXARGS
    decreases |s| - pos
  {
    hide TokenAt, PeekIn, Left, SkipWs, Written, ParseRedirs, RedirsToks, Words;
    NoToks(f);
    var t := TokenAt(s, pos);
    if PeekIn(s, pos, "|)&;") {
      LeftSkip(f, s, pos);
    } else if t.kind == '\0' {
      LeftEnd(f, s, pos);
    } else if t.kind == 'a' && argc + 1 < MAXARGS {
      LeftNext(f, s, pos);
      RedirsUse(f, s, t.next);
      var rds := ParseRedirs(s, t.next);
      if rds.Ok? {
        ArgsUse(f, s, rds.pos, argc + 1);
        var a := ParseArgs(s, rds.pos, argc + 1);
        if a.Ok? {
          WordFirst(f, Range(t.q, t.eq), a.v.argv);
          RedirsAdd(f, rds.v, a.v.rds);
        }
      }
    }
  }

  lemma LeftEnd(f: Weight, s: string, pos: nat)
    requires pos <= |s| && TokenAt(s, pos).kind == '\0'
    ensures Left(f, s, pos) == Left(f, s, TokenAt(s, pos).next)
  {
    hide SkipWs, WordEnd, Left;
    LeftSkip(f, s, pos);
    assert TokenAt(s, pos).next == SkipWs(s, pos);
  }

  lemma {:induction false} ExecUse(f: Weight, s: string, pos: nat)
    requires Cancels(f) && pos <= |s|
    ensures var r := ParseExec(s, pos);
            r.Ok? ==> Left(f, s, pos) == TreeToks(f, r.v) + Left(f, s, r.pos) && Sound(s, r.v)
    decreases |s| - pos, 1
  {
    hide TokenAt, PeekIn, Left, SkipWs, Written, ParseRedirs, ParseArgs, ParseBlock;
    if PeekIn(s, pos, "(") {
      BlockUse(f, s, pos);
    } else {
      RedirsUse(f, s, pos);
      var rds := ParseRedirs(s, pos);
      if rds.Ok? {
        ArgsUse(f, s, rds.pos, 0);
        var a := ParseArgs(s, rds.pos, 0);
        if a.Ok? {
          RedirsAdd(f, rds.v, a.v.rds);
          WrapToks(f, Exec(a.v.argv), rds.v + a.v.rds);
          WrapSound(s, Exec(a.v.argv), rds.v + a.v.rds);
        }
      }
    }
  }

  lemma {:induction false} BlockUse(f: Weight, s: string, pos: nat)
    requires Cancels(f) && pos <= |s| && PeekIn(s, pos, "(")
    ensures var r := ParseBlock(s, pos);
            r.Ok? ==> Left(f, s, pos) == TreeToks(f, r.v) + Left(f, s, r.pos) && Sound(s, r.v)
    decreases |s| - pos, 0
  {
    hide Left, Written, ParseRedirs, ParseLine;
    LeftPeeked(f, s, pos, "(");
    var next := TokenAt(s, pos).next;
    LineUse(f, s, next);
    var line := ParseLine(s, next);
    if line.Ok? && PeekIn(s, line.pos, ")") {
      LeftPeeked(f, s, line.pos, ")");
      RedirsUse(f, s, TokenAt(s, line.pos).next);
      var rds := ParseRedirs(s, TokenAt(s, line.pos).next);
      if rds.Ok? {
        WrapToks(f, line.v, rds.v);
        WrapSound(s, line.v, rds.v);
      }
    }
  }

  lemma {:induction false} PipeUse(f: Weight, s: string, pos: nat)
    requires Cancels(f) && pos <= |s|
    ensures var r := ParsePipe(s, pos);
            r.Ok? ==> Left(f, s, pos) == TreeToks(f, r.v) + Left(f, s, r.pos) && Sound(s, r.v)
    decreases |s| - pos, 2
  {
    hide Left, Written, ParseExec;
    ExecUse(f, s, pos);
    var left := ParseExec(s, pos);
    if left.Ok? {
      if PeekIn(s, left.pos, "|") {
        LeftPeeked(f, s, left.pos, "|");
        PipeUse(f, s, TokenAt(s, left.pos).next);
      } else {
        LeftSkip(f, s, left.pos);
      }
    }
  }

  lemma {:induction false} BacksUse(f: Weight, s: string, pos: nat, cmd: Cmd<Range>)
    requires pos <= |s| && Sound(s, cmd)
    ensures var r := ParseBacks(s, pos, cmd);
            TreeToks(f, cmd) + Left(f, s, pos) == TreeToks(f, r.v) + Left(f, s, r.pos) && Sound(s, r.v)
    decreases |s| - pos
  {
    hide Left, Written;
    if PeekIn(s, pos, "&") {
      LeftPeeked(f, s, pos, "&");
      BacksUse(f, s, TokenAt(s, pos).next, Back(cmd));
    } else {
      LeftSkip(f, s, pos);
    }
  }

  lemma {:induction false} LineUse(f: Weight, s: string, pos: nat)
    requires Cancels(f) && pos <= |s|
    ensures var r := ParseLine(s, pos);
            r.Ok? ==> Left(f, s, pos) == TreeToks(f, r.v) + Left(f, s, r.pos) && Sound(s, r.v)
    decreases |s| - pos, 3
  {
    hide Left, Written, ParsePipe, ParseBacks;
    PipeUse(f, s, pos);
    var pipe := ParsePipe(s, pos);
    if pipe.Ok? {
      BacksUse(f, s, pipe.pos, pipe.v);
      var front := ParseBacks(s, pipe.pos, pipe.v);
      if PeekIn(s, front.pos, ";") {
        LeftPeeked(f, s, front.pos, ";");
        LineUse(f, s, TokenAt(s, front.pos).next);
      } else {
        LeftSkip(f, s, front.pos);
      }
    }
  }

  /** An accepted line weighs what its tree weighs. */
  lemma ParseWeighs(f: Weight, s: string)
    requires Cancels(f)
    ensures var r := ParseCmd(s);
            r.Ok? ==> Left(f, s, 0) == TreeToks(f, r.v) && Sound(s, r.v)
  {
    hide Left, Written, ParseLine, TreeToks, Sound;
    LineUse(f, s, 0);
    var line := ParseLine(s, 0);
    if line.Ok? {
      LeftNone(f, s, line.pos);
    }
  }

  function One(x: Tok): Weight { t => if t == x then 1 else 0 }

  function Depth(): Weight { (t: Tok) => if t == Sym('(') then 1 else if t == Sym(')') then -1 else 0 }

  lemma {:induction false} DepthIs(s: string, pos: nat)
    requires pos <= |s|
    ensures Left(Depth(), s, pos) == Left(One(Sym('(')), s, pos) - Left(One(Sym(')')), s, pos)
    decreases |s| - pos
  {
    var t := TokenAt(s, pos);
    if t.kind != '\0' {
      DepthIs(s, t.next);
    }
  }

  lemma {:induction false} TreeDepth(cmd: Cmd<Range>)
    ensures TreeToks(Depth(), cmd) == 0
  {
    match cmd
    case Exec(argv) => NoParens(argv);
    case Redir(c, rd) => TreeDepth(c);
    case Pipe(l, r) => TreeDepth(l); TreeDepth(r);
    case List(l, r) => TreeDepth(l); TreeDepth(r);
    case Back(c) => TreeDepth(c);
  }

  lemma {:induction false} NoParens(argv: seq<Range>)
    ensures Words(Depth(), argv) == 0
    decreases |argv|
  {
    if argv != [] {
      NoParens(argv[1..]);
    }
  }

  /** Every token of an accepted line, parentheses apart, occurs in the line exactly as often as in
      its tree; the line has as many opening as closing parentheses; no command of the tree has more
      words than fit, and every redirection stands in the line as its symbol and the word after it. */
  lemma ParseUsesAll(s: string, x: Tok)
    requires ParseCmd(s).Ok? && x != Sym('(') && x != Sym(')')
    ensures var cmd := ParseCmd(s).v;
            && Left(One(x), s, 0) == TreeToks(One(x), cmd)
            && Left(One(Sym('(')), s, 0) == Left(One(Sym(')')), s, 0)
            && Sound(s, cmd)
  {
    ParseWeighs(One(x), s);
    ParseWeighs(Depth(), s);
    DepthIs(s, 0);
    TreeDepth(ParseCmd(s).v);
  }
}
