/** What the shell's parser computes, as functions of the input and a position. A command refers to
    its words by token ranges of the input; the input is a C string without its terminator.
 */
module ShellGrammar {

  const MAXARGS: nat := 10

  datatype Kind = Input | Output | Append

  datatype Redirection<T> = Redirection(kind: Kind, file: T)

  datatype Cmd<T> =
    | Exec(argv: seq<T>)
    | Redir(cmd: Cmd<T>, rd: Redirection<T>)
    | Pipe(left: Cmd<T>, right: Cmd<T>)
    | List(left: Cmd<T>, right: Cmd<T>)
    | Back(cmd: Cmd<T>)

  datatype Range = Range(q: nat, eq: nat)

  datatype Panic = MissingFile | Syntax | TooManyArgs | MissingParen | Leftovers

  datatype Result<T> = Ok(v: T, pos: nat) | Err(panic: Panic)

  predicate Ws(c: char) { c in " \t\r\n\U{B}" }

  predicate Symbol(c: char) { c in "<|>&;()" }

  predicate WordChar(c: char) { !Ws(c) && !Symbol(c) }

  /** The first position from pos on that is not white space. */
  function SkipWs(s: string, pos: nat): (p: nat)
    requires pos <= |s|
    ensures pos <= p <= |s| && (p < |s| ==> !Ws(s[p])) && (forall k | pos <= k < p :: Ws(s[k]))
    decreases |s| - pos
  {
    if pos < |s| && Ws(s[pos]) then SkipWs(s, pos + 1) else pos
  }

  function WordEnd(s: string, pos: nat): (p: nat)
    requires pos <= |s|
    ensures pos <= p <= |s| && (p < |s| ==> !WordChar(s[p])) && (forall k | pos <= k < p :: WordChar(s[k]))
    decreases |s| - pos
  {
    if pos < |s| && WordChar(s[pos]) then WordEnd(s, pos + 1) else pos
  }

  /** gettoken: the kind of the next token ('a' for a word, '+' for >>), its range, and the
      position after it and the white space that follows. */
  datatype Token = Token(kind: char, q: nat, eq: nat, next: nat)

  function TokenAt(s: string, pos: nat): (t: Token)
    requires pos <= |s|
    ensures pos <= t.q <= t.eq <= t.next <= |s|
    ensures t.kind != '\0' ==> pos < t.next
    ensures t.kind == 'a' ==> IsWord(s, t.q, t.eq)
  {
    var q := SkipWs(s, pos);
    if q == |s| then Token('\0', q, q, q)
    else if s[q] in "|();&<" then Token(s[q], q, q + 1, SkipWs(s, q + 1))
    else if s[q] == '>' then
      if q + 1 < |s| && s[q + 1] == '>' then Token('+', q, q + 2, SkipWs(s, q + 2))
      else Token('>', q, q + 1, SkipWs(s, q + 1))
    else
      var e := WordEnd(s, q);
      Token('a', q, e, SkipWs(s, e))
  }

  /** A maximal run of word characters. */
  predicate IsWord(s: string, q: nat, eq: nat) {
    q < eq <= |s| && (forall k | q <= k < eq :: WordChar(s[k])) && (eq < |s| ==> !WordChar(s[eq]))
  }

  /** peek */
  predicate PeekIn(s: string, pos: nat, toks: string)
    requires pos <= |s|
  {
    var p := SkipWs(s, pos);
    p < |s| && s[p] in toks
  }

  function KindOf(c: char): Kind {
    if c == '<' then Input else if c == '>' then Output else Append
  }

  /** Redirections wrap a command, the last one outermost. */
  function Wrap<T>(cmd: Cmd<T>, rds: seq<Redirection<T>>): (c: Cmd<T>) {
    if rds == [] then cmd else Redir(Wrap(cmd, rds[..|rds| - 1]), rds[|rds| - 1])
  }

  function ParseRedirs(s: string, pos: nat): (r: Result<seq<Redirection<Range>>>)
    requires pos <= |s|
    ensures r.Ok? ==> pos <= r.pos <= |s|
    decreases |s| - pos
  {
    if !PeekIn(s, pos, "<>") then Ok([], SkipWs(s, pos))
    else
      var t := TokenAt(s, pos);
      var f := TokenAt(s, t.next);
      if f.kind != 'a' then Err(MissingFile)
      else
        match ParseRedirs(s, f.next)
        case Ok(rds, p) => Ok([Redirection(KindOf(t.kind), Range(f.q, f.eq))] + rds, p)
        case Err(e) => Err(e)
  }

  datatype Args = Args(argv: seq<Range>, rds: seq<Redirection<Range>>)

  /** The loop of parseexec, with argc arguments already read. */
  function ParseArgs(s: string, pos: nat, argc: nat): (r: Result<Args>)
    requires pos <= |s|
    ensures r.Ok? ==> pos <= r.pos <= |s|
    decreases |s| - pos
  {
    if PeekIn(s, pos, "|)&;") then Ok(Args([], []), SkipWs(s, pos))
    else
      var t := TokenAt(s, pos);
      if t.kind == '\0' then Ok(Args([], []), t.next)
      else if t.kind != 'a' then Err(Syntax)
      else if argc + 1 >= MAXARGS then Err(TooManyArgs)
      else
        match ParseRedirs(s, t.next)
        case Err(e) => Err(e)
        case Ok(rds, p) =>
          match ParseArgs(s, p, argc + 1)
          case Err(e) => Err(e)
          case Ok(a, p2) => Ok(Args([Range(t.q, t.eq)] + a.argv, rds + a.rds), p2)
  }

  function ParseExec(s: string, pos: nat): (r: Result<Cmd<Range>>)
    requires pos <= |s|
    ensures r.Ok? ==> pos <= r.pos <= |s|
    decreases |s| - pos, 1
  {
    if PeekIn(s, pos, "(") then ParseBlock(s, pos)
    else
      match ParseRedirs(s, pos)
      case Err(e) => Err(e)
      case Ok(rds, p) =>
        match ParseArgs(s, p, 0)
        case Err(e) => Err(e)
        case Ok(a, p2) => Ok(Wrap(Exec(a.argv), rds + a.rds), p2)
  }

  function ParseBlock(s: string, pos: nat): (r: Result<Cmd<Range>>)
    requires pos <= |s| && PeekIn(s, pos, "(")
    ensures r.Ok? ==> pos <= r.pos <= |s|
    decreases |s| - pos, 0
  {
    match ParseLine(s, TokenAt(s, pos).next)
    case Err(e) => Err(e)
    case Ok(cmd, p) =>
      if !PeekIn(s, p, ")") then Err(MissingParen)
      else
        match ParseRedirs(s, TokenAt(s, p).next)
        case Err(e) => Err(e)
        case Ok(rds, p2) => Ok(Wrap(cmd, rds), p2)
  }

  function ParsePipe(s: string, pos: nat): (r: Result<Cmd<Range>>)
    requires pos <= |s|
    ensures r.Ok? ==> pos <= r.pos <= |s|
    decreases |s| - pos, 2
  {
    match ParseExec(s, pos)
    case Err(e) => Err(e)
    case Ok(cmd, p) =>
      if !PeekIn(s, p, "|") then Ok(cmd, SkipWs(s, p))
      else
        match ParsePipe(s, TokenAt(s, p).next)
        case Err(e) => Err(e)
        case Ok(right, p2) => Ok(Pipe(cmd, right), p2)
  }

  /** The loop of parseline over &. */
  function ParseBacks(s: string, pos: nat, cmd: Cmd<Range>): (r: Result<Cmd<Range>>)
    requires pos <= |s|
    ensures r.Ok? && pos <= r.pos <= |s|
    decreases |s| - pos
  {
    if PeekIn(s, pos, "&") then ParseBacks(s, TokenAt(s, pos).next, Back(cmd)) else Ok(cmd, SkipWs(s, pos))
  }

  function ParseLine(s: string, pos: nat): (r: Result<Cmd<Range>>)
    requires pos <= |s|
    ensures r.Ok? ==> pos <= r.pos <= |s|
    decreases |s| - pos, 3
  {
    match ParsePipe(s, pos)
    case Err(e) => Err(e)
    case Ok(pipe, p) =>
      var front := ParseBacks(s, p, pipe);
      if !PeekIn(s, front.pos, ";") then Ok(front.v, SkipWs(s, front.pos))
      else
        match ParseLine(s, TokenAt(s, front.pos).next)
        case Err(e) => Err(e)
        case Ok(right, p2) => Ok(List(front.v, right), p2)
  }

  /** parsecmd, up to nulterminate */
  function ParseCmd(s: string): (r: Result<Cmd<Range>>)
    ensures r.Ok? ==> r.pos == |s|
  {
    match ParseLine(s, 0)
    case Err(e) => Err(e)
    case Ok(cmd, p) => if SkipWs(s, p) != |s| then Err(Leftovers) else Ok(cmd, |s|)
  }

  // --- the words of a command ---

  /** Every range of the command is one of a word of s. */
  predicate AllWords(s: string, cmd: Cmd<Range>) {
    match cmd
    case Exec(argv) => forall k | 0 <= k < |argv| :: IsWord(s, argv[k].q, argv[k].eq)
    case Redir(c, rd) => AllWords(s, c) && IsWord(s, rd.file.q, rd.file.eq)
    case Pipe(l, r) => AllWords(s, l) && AllWords(s, r)
    case List(l, r) => AllWords(s, l) && AllWords(s, r)
    case Back(c) => AllWords(s, c)
  }

  predicate RedirWords(s: string, rds: seq<Redirection<Range>>) {
    forall k | 0 <= k < |rds| :: IsWord(s, rds[k].file.q, rds[k].file.eq)
  }

  lemma {:induction false} WrapWords(s: string, cmd: Cmd<Range>, rds: seq<Redirection<Range>>)
    requires AllWords(s, cmd) && RedirWords(s, rds)
    ensures AllWords(s, Wrap(cmd, rds))
    decreases |rds|
  {
    if rds != [] {
      WrapWords(s, cmd, rds[..|rds| - 1]);
    }
  }

  lemma {:induction false} RedirsWords(s: string, pos: nat)
    requires pos <= |s|
    ensures ParseRedirs(s, pos).Ok? ==> RedirWords(s, ParseRedirs(s, pos).v)
    decreases |s| - pos
  {
    if PeekIn(s, pos, "<>") {
      var f := TokenAt(s, TokenAt(s, pos).next);
      if f.kind == 'a' {
        RedirsWords(s, f.next);
      }
    }
  }

  lemma {:induction false} ArgsWords(s: string, pos: nat, argc: nat)
    requires pos <= |s|
    ensures var r := ParseArgs(s, pos, argc);
            r.Ok? ==> AllWords(s, Exec(r.v.argv)) && RedirWords(s, r.v.rds) && (argc < MAXARGS ==> argc + |r.v.argv| < MAXARGS)
    decreases |s| - pos
  {
    hide TokenAt, PeekIn, ParseRedirs, IsWord, SkipWs;
    if !PeekIn(s, pos, "|)&;") {
      var t := TokenAt(s, pos);
      if t.kind == 'a' && argc + 1 < MAXARGS {
        RedirsWords(s, t.next);
        var rds := ParseRedirs(s, t.next);
        if rds.Ok? {
          ArgsWords(s, rds.pos, argc + 1);
        }
      }
    }
  }

  lemma {:induction false} ExecWords(s: string, pos: nat)
    requires pos <= |s|
    ensures ParseExec(s, pos).Ok? ==> AllWords(s, ParseExec(s, pos).v)
    decreases |s| - pos, 1
  {
    if PeekIn(s, pos, "(") {
      BlockWords(s, pos);
    } else {
      RedirsWords(s, pos);
      var rds := ParseRedirs(s, pos);
      if rds.Ok? {
        ArgsWords(s, rds.pos, 0);
        var a := ParseArgs(s, rds.pos, 0);
        if a.Ok? {
          WrapWords(s, Exec(a.v.argv), rds.v + a.v.rds);
        }
      }
    }
  }

  lemma {:induction false} BlockWords(s: string, pos: nat)
    requires pos <= |s| && PeekIn(s, pos, "(")
    ensures ParseBlock(s, pos).Ok? ==> AllWords(s, ParseBlock(s, pos).v)
    decreases |s| - pos, 0
  {
    LineWords(s, TokenAt(s, pos).next);
    var line := ParseLine(s, TokenAt(s, pos).next);
    if line.Ok? && PeekIn(s, line.pos, ")") {
      RedirsWords(s, TokenAt(s, line.pos).next);
      var rds := ParseRedirs(s, TokenAt(s, line.pos).next);
      if rds.Ok? {
        WrapWords(s, line.v, rds.v);
      }
    }
  }

  lemma {:induction false} PipeWords(s: string, pos: nat)
    requires pos <= |s|
    ensures ParsePipe(s, pos).Ok? ==> AllWords(s, ParsePipe(s, pos).v)
    decreases |s| - pos, 2
  {
    ExecWords(s, pos);
    var left := ParseExec(s, pos);
    if left.Ok? && PeekIn(s, left.pos, "|") {
      PipeWords(s, TokenAt(s, left.pos).next);
    }
  }

  lemma {:induction false} BacksWords(s: string, pos: nat, cmd: Cmd<Range>)
    requires pos <= |s| && AllWords(s, cmd)
    ensures AllWords(s, ParseBacks(s, pos, cmd).v)
    decreases |s| - pos
  {
    if PeekIn(s, pos, "&") {
      BacksWords(s, TokenAt(s, pos).next, Back(cmd));
    }
  }

  lemma {:induction false} LineWords(s: string, pos: nat)
    requires pos <= |s|
    ensures ParseLine(s, pos).Ok? ==> AllWords(s, ParseLine(s, pos).v)
    decreases |s| - pos, 3
  {
    PipeWords(s, pos);
    var pipe := ParsePipe(s, pos);
    if pipe.Ok? {
      BacksWords(s, pipe.pos, pipe.v);
      var front := ParseBacks(s, pipe.pos, pipe.v);
      if PeekIn(s, front.pos, ";") {
        LineWords(s, TokenAt(s, front.pos).next);
      }
    }
  }
}
