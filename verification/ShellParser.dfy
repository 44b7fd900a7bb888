/** sh.c's recursive-descent parser and nulterminate. `ps` is the position that the parse functions
    advance through the input; a failed parse is the shell's panic.
 */
module ShellParser {
  import opened ShellGrammar
  import opened ShellRoundTrip

  class Parser {
    const s: string
    var ps: nat

    constructor (s: string)
      ensures this.s == s && ps == 0
    {
      this.s, ps := s, 0;
    }

    method SkipSpace(p: nat) returns (q: nat)
      requires p <= |s|
      ensures q == SkipWs(s, p)
    {
      q := p;
      while q < |s| && Ws(s[q])
        invariant p <= q <= |s| && SkipWs(s, q) == SkipWs(s, p)
      {
        q := q + 1;
      }
    }

    /** gettoken */
    method GetToken() returns (t: Token)
      requires ps <= |s|
      modifies this`ps
      ensures t == TokenAt(s, old(ps)) && ps == t.next <= |s|
    {
      var q := SkipSpace(ps);
      var e, kind := q, '\0';
      if q < |s| {
        if s[q] in "|();&<" {
          e, kind := q + 1, s[q];
        } else if s[q] == '>' {
          e, kind := q + 1, '>';
          if e < |s| && s[e] == '>' {
            e, kind := e + 1, '+';
          }
        } else {
          kind := 'a';
          while e < |s| && !Ws(s[e]) && !Symbol(s[e])
            invariant q <= e <= |s| && WordEnd(s, e) == WordEnd(s, q)
          {
            e := e + 1;
          }
        }
      }
      ps := SkipSpace(e);
      t := Token(kind, q, e, ps);
    }

    method Peek(toks: string) returns (b: bool)
      requires ps <= |s|
      modifies this`ps
      ensures ps == SkipWs(s, old(ps)) && b == PeekIn(s, old(ps), toks)
    {
      ps := SkipSpace(ps);
      b := ps < |s| && s[ps] in toks;
    }

    /** parseredirs, giving the redirections in order */
    method Redirections() returns (r: Result<seq<Redirection<Range>>>)
      requires ps <= |s|
      modifies this`ps
      ensures r == ParseRedirs(s, old(ps)) && ps <= |s| && (r.Ok? ==> ps == r.pos)
    {
      hide TokenAt, PeekIn, SkipWs;
      var rds := [];
      var b := PeekRedirs();
      PrependNone(ParseRedirs(s, ps));
      while b
        invariant ps <= |s| && old(ps) <= ps && b == PeekIn(s, ps, "<>") && (!b ==> ps == SkipWs(s, ps))
        invariant Prepend(rds, ParseRedirs(s, ps)) == ParseRedirs(s, old(ps))
        decreases |s| - ps
      {
        ghost var p := ps;
        var t := GetToken();
        TokenMoves(s, p, "<>");
        var f := GetToken();
        if f.kind != 'a' {
          return Err(MissingFile);
        }
        PrependMore(s, p, rds);
        rds := rds + [Redirection(KindOf(t.kind), Range(f.q, f.eq))];
        b := PeekRedirs();
      }
      assert rds + [] == rds;
      r := Ok(rds, ps);
    }

    method PeekRedirs() returns (b: bool)
      requires ps <= |s|
      modifies this`ps
      ensures ps == SkipWs(s, old(ps)) == SkipWs(s, ps) && b == PeekIn(s, ps, "<>") == PeekIn(s, old(ps), "<>")
      ensures ParseRedirs(s, ps) == ParseRedirs(s, old(ps))
    {
      SkipTwice(s, ps);
      RedirsSkip(s, ps);
      PeekSkip(s, ps, "<>");
      b := Peek("<>");
    }

    /** parseexec */
    method ExecCmd() returns (r: Result<Cmd<Range>>)
      requires ps <= |s|
      modifies this`ps
      ensures r == ParseExec(s, old(ps)) && ps <= |s| && (r.Ok? ==> ps == r.pos)
      decreases |s| - ps, 1
    {
      hide TokenAt, PeekIn, SkipWs, ParseRedirs, ParseArgs, ParseBlock;
      ghost var p := ps;
      var b := Peek("(");
      SkipTwice(s, p);
      PeekSkip(s, p, "(");
      ExecSkip(s, p);
      if b {
        BlockSkip(s, p);
        r := Block();
        return;
      }
      RedirsSkip(s, p);
      var rds := Redirections();
      if rds.Err? {
        return Err(rds.panic);
      }
      var a := Arguments();
      if a.Err? {
        return Err(a.panic);
      }
      r := Ok(Wrap(Exec(a.v.argv), rds.v + a.v.rds), ps);
    }

    /** parseexec's loop */
    method Arguments() returns (r: Result<Args>)
      requires ps <= |s|
      modifies this`ps
      ensures r == ParseArgs(s, old(ps), 0) && ps <= |s| && (r.Ok? ==> ps == r.pos)
    {
      hide TokenAt, PeekIn, SkipWs, ParseRedirs;
      var a, argc := Args([], []), 0;
      AddNone(ParseArgs(s, ps, 0));
      while true
        invariant old(ps) <= ps <= |s| && argc < MAXARGS
        invariant AddTo(a, ParseArgs(s, ps, argc)) == ParseArgs(s, old(ps), 0)
        decreases |s| - ps
      {
        ghost var p := ps;
        var b := Peek("|)&;");
        TokenSkip(s, p);
        ArgsSkip(s, p, argc);
        if b {
          break;
        }
        PeekSkip(s, p, "|)&;");
        SkipTwice(s, p);
        var t := GetToken();
        if t.kind == '\0' {
          break;
        }
        if t.kind != 'a' {
          return Err(Syntax);
        }
        argc := argc + 1;
        if argc >= MAXARGS {
          return Err(TooManyArgs);
        }
        var rds := Redirections();
        if rds.Err? {
          return Err(rds.panic);
        }
        AddMore(a, Range(t.q, t.eq), rds.v, ParseArgs(s, ps, argc));
        a := Args(a.argv + [Range(t.q, t.eq)], a.rds + rds.v);
      }
      assert a.argv + [] == a.argv && a.rds + [] == a.rds;
      r := Ok(a, ps);
    }

    /** parseblock */
    method Block() returns (r: Result<Cmd<Range>>)
      requires ps <= |s| && PeekIn(s, ps, "(")
      modifies this`ps
      ensures r == ParseBlock(s, old(ps)) && ps <= |s| && (r.Ok? ==> ps == r.pos)
      decreases |s| - ps, 0
    {
      hide TokenAt, PeekIn, SkipWs, ParseRedirs, ParseLine;
      TokenMoves(s, ps, "(");
      var t := GetToken();
      var line := Line();
      if line.Err? {
        return Err(line.panic);
      }
      ghost var p := ps;
      var b := Peek(")");
      TokenSkip(s, p);
      if !b {
        return Err(MissingParen);
      }
      t := GetToken();
      var rds := Redirections();
      if rds.Err? {
        return Err(rds.panic);
      }
      r := Ok(Wrap(line.v, rds.v), ps);
    }

    /** parsepipe */
    method PipeCmd() returns (r: Result<Cmd<Range>>)
      requires ps <= |s|
      modifies this`ps
      ensures r == ParsePipe(s, old(ps)) && ps <= |s| && (r.Ok? ==> ps == r.pos)
      decreases |s| - ps, 2
    {
      hide TokenAt, PeekIn, SkipWs, ParseExec;
      r := ExecCmd();
      if r.Err? {
        return;
      }
      ghost var p := ps;
      var b := Peek("|");
      TokenSkip(s, p);
      if b {
        TokenMoves(s, p, "|");
        var t := GetToken();
        var right := PipeCmd();
        if right.Err? {
          return right;
        }
        return Ok(Pipe(r.v, right.v), ps);
      }
      return Ok(r.v, ps);
    }

    /** parseline */
    method Line() returns (r: Result<Cmd<Range>>)
      requires ps <= |s|
      modifies this`ps
      ensures r == ParseLine(s, old(ps)) && ps <= |s| && (r.Ok? ==> ps == r.pos)
      decreases |s| - ps, 3
    {
      hide TokenAt, PeekIn, SkipWs, ParsePipe, ParseBacks;
      r := PipeCmd();
      if r.Err? {
        return;
      }
      var cmd := Backgrounds(r.v);
      ghost var p := ps;
      var b := Peek(";");
      TokenSkip(s, p);
      if b {
        TokenMoves(s, p, ";");
        var t := GetToken();
        var right := Line();
        if right.Err? {
          return right;
        }
        return Ok(List(cmd, right.v), ps);
      }
      return Ok(cmd, ps);
    }

    /** parseline's loop over & */
    method Backgrounds(c: Cmd<Range>) returns (cmd: Cmd<Range>)
      requires ps <= |s|
      modifies this`ps
      ensures ParseBacks(s, old(ps), c) == Ok(cmd, ps) && old(ps) <= ps <= |s|
    {
      hide TokenAt, PeekIn, SkipWs;
      cmd := c;
      while true
        invariant old(ps) <= ps <= |s| && ParseBacks(s, ps, cmd) == ParseBacks(s, old(ps), c)
        decreases |s| - ps
      {
        ghost var p := ps;
        var b := Peek("&");
        TokenSkip(s, p);
        if !b {
          break;
        }
        TokenMoves(s, p, "&");
        var t := GetToken();
        cmd := Back(cmd);
      }
    }
  }

  // --- facts for the loops ---

  lemma TokenMoves(s: string, p: nat, toks: string)
    requires p <= |s| && PeekIn(s, p, toks)
    ensures p < TokenAt(s, p).next <= |s|
  {
  }

  lemma BlockSkip(s: string, p: nat)
    requires p <= |s| && PeekIn(s, p, "(")
    ensures PeekIn(s, SkipWs(s, p), "(") && ParseBlock(s, SkipWs(s, p)) == ParseBlock(s, p)
  {
    hide TokenAt, PeekIn, SkipWs, ParseLine, ParseRedirs;
    PeekSkip(s, p, "(");
    TokenSkip(s, p);
  }

  /** A result with more redirections in front. */
  function Prepend(rds: seq<Redirection<Range>>, r: Result<seq<Redirection<Range>>>): Result<seq<Redirection<Range>>> {
    match r case Ok(v, p) => Ok(rds + v, p) case Err(e) => Err(e)
  }

  lemma PrependNone(r: Result<seq<Redirection<Range>>>)
    ensures Prepend([], r) == r
  {
    assert r.Ok? ==> [] + r.v == r.v;
  }

  lemma PrependMore(s: string, p: nat, rds: seq<Redirection<Range>>)
    requires p <= |s| && PeekIn(s, p, "<>")
    ensures var t := TokenAt(s, p);
            var f := TokenAt(s, t.next);
            f.kind == 'a' ==>
              Prepend(rds, ParseRedirs(s, p)) == Prepend(rds + [Redirection(KindOf(t.kind), Range(f.q, f.eq))], ParseRedirs(s, f.next))
  {
    hide TokenAt, PeekIn;
    var t := TokenAt(s, p);
    var f := TokenAt(s, t.next);
    var rd := Redirection(KindOf(t.kind), Range(f.q, f.eq));
    if f.kind == 'a' && ParseRedirs(s, f.next).Ok? {
      var more := ParseRedirs(s, f.next).v;
      assert rds + ([rd] + more) == (rds + [rd]) + more;
    }
  }

  /** A result with more arguments and redirections in front. */
  function AddTo(a: Args, r: Result<Args>): Result<Args> {
    match r case Ok(v, p) => Ok(Args(a.argv + v.argv, a.rds + v.rds), p) case Err(e) => Err(e)
  }

  lemma AddNone(r: Result<Args>)
    ensures AddTo(Args([], []), r) == r
  {
    assert r.Ok? ==> [] + r.v.argv == r.v.argv && [] + r.v.rds == r.v.rds;
  }

  lemma AddMore(a: Args, arg: Range, rds: seq<Redirection<Range>>, r: Result<Args>)
    ensures r.Ok? ==> AddTo(a, Ok(Args([arg] + r.v.argv, rds + r.v.rds), r.pos)) == AddTo(Args(a.argv + [arg], a.rds + rds), r)
  {
    if r.Ok? {
      assert a.argv + ([arg] + r.v.argv) == (a.argv + [arg]) + r.v.argv;
      assert a.rds + (rds + r.v.rds) == (a.rds + rds) + r.v.rds;
    }
  }

  // --- NUL termination ---

  /** Position i is the end of one of the command's tokens. */
  predicate Ends(cmd: Cmd<Range>, i: nat) {
    match cmd
    case Exec(argv) => exists k | 0 <= k < |argv| :: argv[k].eq == i
    case Redir(c, rd) => Ends(c, i) || rd.file.eq == i
    case Pipe(l, r) => Ends(l, i) || Ends(r, i)
    case List(l, r) => Ends(l, i) || Ends(r, i)
    case Back(c) => Ends(c, i)
  }

  /** nulterminate: a NUL right after every token of the command, and nowhere else */
  method NulTerminate(s: string, cmd: Cmd<Range>, buf: array<char>)
    requires AllWords(s, cmd) && buf.Length == |s| + 1
    modifies buf
    ensures forall i: nat | i < buf.Length :: buf[i] == if Ends(cmd, i) then '\0' else old(buf[i])
    decreases cmd
  {
    match cmd
    case Exec(argv) =>
      var i := 0;
      while i < |argv|
        invariant 0 <= i <= |argv|
        invariant forall j: nat | j < buf.Length ::
                    buf[j] == if exists k | 0 <= k < i :: argv[k].eq == j then '\0' else old(buf[j])
      {
        buf[argv[i].eq] := '\0';
        i := i + 1;
      }
    case Redir(c, rd) =>
      NulTerminate(s, c, buf);
      buf[rd.file.eq] := '\0';
    case Pipe(l, r) =>
      NulTerminate(s, l, buf);
      NulTerminate(s, r, buf);
    case List(l, r) =>
      NulTerminate(s, l, buf);
      NulTerminate(s, r, buf);
    case Back(c) =>
      NulTerminate(s, c, buf);
  }

  /** The C string at q. */
  function CString(b: string, q: nat): (w: string)
    decreases |b| - q
  {
    if q >= |b| || b[q] == '\0' then "" else [b[q]] + CString(b, q + 1)
  }

  /** The command with each token read as the C string that starts there. */
  function ReadC(b: string, cmd: Cmd<Range>): (t: Cmd<string>) {
    match cmd
    case Exec(argv) => Exec(seq(|argv|, k requires 0 <= k < |argv| => CString(b, argv[k].q)))
    case Redir(c, rd) => Redir(ReadC(b, c), Redirection(rd.kind, CString(b, rd.file.q)))
    case Pipe(l, r) => Pipe(ReadC(b, l), ReadC(b, r))
    case List(l, r) => List(ReadC(b, l), ReadC(b, r))
    case Back(c) => Back(ReadC(b, c))
  }

  /** b is the input after NUL termination of the command. */
  ghost predicate Terminated(s: string, cmd: Cmd<Range>, b: string) {
    && |b| == |s| + 1 && '\0' !in s && b[|s|] == '\0'
    && forall i: nat | i < |s| :: b[i] == if Ends(cmd, i) then '\0' else s[i]
  }

  /** An end of a token is never inside a token. */
  lemma {:induction false} EndsOutside(s: string, cmd: Cmd<Range>, i: nat)
    requires AllWords(s, cmd) && Ends(cmd, i) && i < |s|
    ensures !WordChar(s[i])
    decreases cmd
  {
    match cmd
    case Exec(_) =>
    case Redir(c, rd) => if Ends(c, i) { EndsOutside(s, c, i); }
    case Pipe(l, r) => if Ends(l, i) { EndsOutside(s, l, i); } else { EndsOutside(s, r, i); }
    case List(l, r) => if Ends(l, i) { EndsOutside(s, l, i); } else { EndsOutside(s, r, i); }
    case Back(c) => EndsOutside(s, c, i);
  }

  lemma {:induction false} CStringIs(s: string, b: string, q: nat, eq: nat)
    requires q <= eq < |b| && |s| <= |b| && eq <= |s| && b[eq] == '\0' && forall k | q <= k < eq :: b[k] == s[k] != '\0'
    ensures CString(b, q) == s[q..eq]
    decreases eq - q
  {
    if q < eq {
      CStringIs(s, b, q + 1, eq);
      assert s[q..eq] == [s[q]] + s[q + 1..eq];
    }
  }

  lemma WordReads(s: string, whole: Cmd<Range>, b: string, r: Range)
    requires Terminated(s, whole, b) && AllWords(s, whole) && IsWord(s, r.q, r.eq) && Ends(whole, r.eq)
    ensures CString(b, r.q) == Text(s, r)
  {
    forall k: nat | r.q <= k < r.eq
      ensures b[k] == s[k] != '\0'
    {
      assert WordChar(s[k]);
      assert s[k] in s;
      if Ends(whole, k) {
        EndsOutside(s, whole, k);
      }
    }
    CStringIs(s, b, r.q, r.eq);
  }

  /** cmd is part of the whole command. */
  lemma {:induction false} PartReads(s: string, whole: Cmd<Range>, b: string, cmd: Cmd<Range>)
    requires Terminated(s, whole, b) && AllWords(s, whole) && AllWords(s, cmd)
    requires forall i: nat | Ends(cmd, i) :: Ends(whole, i)
    ensures ReadC(b, cmd) == Read(s, cmd)
    decreases cmd
  {
    match cmd
    case Exec(argv) =>
      forall k | 0 <= k < |argv|
        ensures CString(b, argv[k].q) == Text(s, argv[k])
      {
        assert Ends(cmd, argv[k].eq);
        WordReads(s, whole, b, argv[k]);
      }
    case Redir(c, rd) =>
      PartReads(s, whole, b, c);
      assert Ends(cmd, rd.file.eq);
      WordReads(s, whole, b, rd.file);
    case Pipe(l, r) =>
      PartReads(s, whole, b, l);
      PartReads(s, whole, b, r);
    case List(l, r) =>
      PartReads(s, whole, b, l);
      PartReads(s, whole, b, r);
    case Back(c) => PartReads(s, whole, b, c);
  }

  /** parsecmd: the line in buf is parsed and cut up in place, after which every argument and file
      name reads as exactly its token. */
  method ParseCommand(s: string, buf: array<char>) returns (r: Result<Cmd<Range>>)
    requires '\0' !in s && buf[..] == s + "\0"
    modifies buf
    ensures r == ParseCmd(s)
    ensures r.Ok? ==> AllWords(s, r.v) && ReadC(buf[..], r.v) == Read(s, r.v)
    ensures r.Err? ==> buf[..] == old(buf[..])
  {
    hide ParseLine, SkipWs, ReadC, Read;
    var parser := new Parser(s);
    r := parser.Line();
    if r.Err? {
      return;
    }
    ghost var p := parser.ps;
    var b := parser.Peek("");
    if parser.ps != |s| {
      return Err(Leftovers);
    }
    LineWords(s, 0);
    r := Ok(r.v, |s|);
    NulTerminate(s, r.v, buf);
    assert Terminated(s, r.v, buf[..]) by {
      forall i: nat | i < |s|
        ensures buf[..][i] == if Ends(r.v, i) then '\0' else s[i]
      {
        assert old(buf[..])[i] == s[i];
      }
      assert old(buf[..])[|s|] == '\0';
    }
    PartReads(s, r.v, buf[..], r.v);
  }
}
