/** The round trip for whole command trees: rendering any tree and parsing the line gives it back. */
module ShellTrees {
  import opened ShellGrammar
  import opened ShellRoundTrip

  function Size<T>(t: Cmd<T>): (n: nat) {
    match t
    case Exec(_) => 1
    case Redir(c, _) => 1 + Size(c)
    case Pipe(l, r) => 1 + Size(l) + Size(r)
    case List(l, r) => 1 + Size(l) + Size(r)
    case Back(c) => 1 + Size(c)
  }

  // --- redirections and & in a row ---

  function Base(t: Cmd<string>): (b: Cmd<string>)
    ensures !b.Redir? && (if t.Redir? then Size(b) < Size(t) else b == t) && (Good(t) ==> Good(b))
  {
    if t.Redir? then Base(t.cmd) else t
  }

  function Rds(t: Cmd<string>): (rds: seq<Redirection<string>>)
    ensures Good(t) ==> GoodRedirs(rds)
  {
    if t.Redir? then Rds(t.cmd) + [t.rd] else []
  }

  lemma {:induction false} RedirsAppend(a: seq<Redirection<string>>, x: Redirection<string>)
    ensures Redirs(a + [x]) == Redirs(a) + Redirs([x])
    decreases |a|
  {
    if a == [] {
      assert a + [x] == [x];
    } else {
      RedirsAppend(a[1..], x);
      assert (a + [x])[1..] == a[1..] + [x];
      Assoc(Op(a[0].kind) + a[0].file + " ", Redirs(a[1..]), Redirs([x]));
    }
  }

  lemma {:induction false} UnitSplit(t: Cmd<string>)
    ensures Unit(t) == Unit(Base(t)) + Redirs(Rds(t)) && t == Wrap(Base(t), Rds(t))
  {
    if t.Redir? {
      UnitSplit(t.cmd);
      RedirsAppend(Rds(t.cmd), t.rd);
      Assoc(Unit(Base(t)), Redirs(Rds(t.cmd)), Redirs([t.rd]));
      assert Rds(t)[..|Rds(t)| - 1] == Rds(t.cmd);
    }
  }

  function Strip(t: Cmd<string>): (u: Cmd<string>)
    ensures !u.Back? && Size(u) <= Size(t) && (t.Back? ==> Size(u) < Size(t)) && (Good(t) ==> Good(u))
  {
    if t.Back? then Strip(t.cmd) else t
  }

  function Amps(t: Cmd<string>): nat {
    if t.Back? then Amps(t.cmd) + 1 else 0
  }

  function AmpText(n: nat): (s: string)
    ensures |s| == n
  {
    if n == 0 then "" else "&" + AmpText(n - 1)
  }

  function Backs<T>(cmd: Cmd<T>, n: nat): (c: Cmd<T>)
    decreases n
  {
    if n == 0 then cmd else Backs(Back(cmd), n - 1)
  }

  lemma {:induction false} AmpAppend(n: nat)
    ensures AmpText(n) + "&" == AmpText(n + 1)
  {
    if n > 0 {
      AmpAppend(n - 1);
      Assoc("&", AmpText(n - 1), "&");
    }
  }

  lemma {:induction false} BacksOuter<T>(cmd: Cmd<T>, n: nat)
    ensures Back(Backs(cmd, n)) == Backs(cmd, n + 1)
    decreases n
  {
    if n > 0 {
      BacksOuter(Back(cmd), n - 1);
    }
  }

  lemma {:induction false} ReadBacks(s: string, cmd: Cmd<Range>, n: nat)
    ensures Read(s, Backs(cmd, n)) == Backs(Read(s, cmd), n)
    decreases n
  {
    if n > 0 {
      ReadBacks(s, Back(cmd), n - 1);
    }
  }

  lemma {:induction false} FrontSplit(t: Cmd<string>)
    ensures Front(t) == Piped(Strip(t)) + AmpText(Amps(t)) && t == Backs(Strip(t), Amps(t))
  {
    if t.Back? {
      FrontSplit(t.cmd);
      AmpAppend(Amps(t.cmd));
      Assoc(Piped(Strip(t)), AmpText(Amps(t.cmd)), "&");
      BacksOuter(Strip(t), Amps(t.cmd));
    }
  }

  lemma AmpsOccur(s: string, p: nat, n: nat)
    requires Occurs(s, p, AmpText(n)) && n > 0
    ensures Occurs(s, p, "&") && Occurs(s, p + 1, AmpText(n - 1))
  {
    OccursSplit(s, p, "&", AmpText(n - 1));
  }

  lemma {:induction false} BacksParse(s: string, p: nat, n: nat, cmd: Cmd<Range>)
    requires Occurs(s, p, AmpText(n)) && p + n <= |s| && !PeekIn(s, p + n, "&")
    ensures ParseBacks(s, p, cmd) == Ok(Backs(cmd, n), SkipWs(s, p + n))
    decreases n
  {
    hide Occurs, AmpText, TokenAt, SkipWs, PeekIn;
    if n > 0 {
      AmpsOccur(s, p, n);
      SymbolAt(s, p, '&');
      PeekHere(s, p, "&");
      BacksParse(s, p + 1, n - 1, Back(cmd));
      BacksSkip(s, p + 1, Back(cmd));
    }
  }

  // --- trees ---

  /** Parsing gave t and stopped at the end of its text, white space included. */
  predicate Parsed(r: Result<Cmd<Range>>, s: string, end: nat, t: Cmd<string>) {
    r.Ok? && end <= |s| && r.pos == SkipWs(s, end) && Read(s, r.v) == t
  }

  /** The four lemmas below (for lines, fronts, pipelines and units) call one another on the same
      tree in an order that depends on its kind. */
  function Order(t: Cmd<string>, which: nat): nat
    requires which < 4
  {
    match t
    case List(_, _) => [1, 4, 3, 2][which]
    case Pipe(_, _) => [3, 2, 1, 4][which]
    case Back(_) => [2, 1, 4, 3][which]
    case _ => [4, 3, 2, 1][which]
  }

  lemma BlockOccur(s: string, p: nat, b: Cmd<string>, rds: seq<Redirection<string>>)
    requires (b.Pipe? || b.List? || b.Back?) && Occurs(s, p, Unit(b) + Redirs(rds))
    ensures var e := p + 1 + |Render(b)|;
            && Occurs(s, p, "(") && Occurs(s, p + 1, Render(b)) && Occurs(s, e, ")") && Occurs(s, e + 1, Redirs(rds))
            && p + |Unit(b) + Redirs(rds)| == e + 1 + |Redirs(rds)|
  {
    hide Redirs, Compound, Occurs;
    OccursSplit(s, p, Unit(b), Redirs(rds));
    Assoc("(", Compound(b), ")");
    OccursSplit(s, p, "(", Compound(b) + ")");
    OccursSplit(s, p + 1, Compound(b), ")");
  }

  /** A parenthesised line with redirections, once the line inside parses. */
  lemma BlockParse(s: string, p: nat, b: Cmd<string>, rds: seq<Redirection<string>>, e: nat)
    requires Occurs(s, p, "(") && p + 1 <= e < |s| && Parsed(ParseLine(s, p + 1), s, e, b) && Occurs(s, e, ")")
    requires Occurs(s, e + 1, Redirs(rds)) && GoodRedirs(rds) && Stops(s, e + 1 + |Redirs(rds)|, "|)&;")
    ensures Parsed(ParseExec(s, p), s, e + 1 + |Redirs(rds)|, Wrap(b, rds))
  {
    hide Occurs, TokenAt, SkipWs, PeekIn, ParseLine, ParseRedirs, Redirs, Stops, Wrap, GoodRedirs, Read;
    var end := e + 1 + |Redirs(rds)|;
    OccursIn(s, e + 1, Redirs(rds));
    SymbolAt(s, p, '(');
    PeekHere(s, p, "(");
    LineSkip(s, p + 1);
    SymbolAt(s, e, ')');
    PeekHere(s, e, ")");
    StopsNot(s, end, "|)&;", "<>");
    RedirsParse(s, e + 1, rds);
    RedirsSkip(s, e + 1);
    var line, tail := ParseLine(s, p + 1), ParseRedirs(s, e + 1);
    ReadWrap(s, line.v, tail.v);
  }

  lemma {:induction false} UnitParse(s: string, p: nat, t: Cmd<string>)
    requires Good(t) && Occurs(s, p, Unit(t)) && Stops(s, p + |Unit(t)|, "|)&;")
    ensures Parsed(ParseExec(s, p), s, p + |Unit(t)|, t)
    decreases Size(t), Order(t, 3)
  {
    hide Occurs, ParseExec, Unit, Redirs, Stops, Render, Read, Wrap, SkipWs, Words, Base, Rds, GoodRedirs, ParseLine;
    OccursIn(s, p, Unit(t));
    UnitSplit(t);
    var b, rds := Base(t), Rds(t);
    if b.Exec? {
      ExecUnit(b);
      OccursIn(s, p, Words(b.argv) + Redirs(rds));
      SimpleParse(s, p, b.argv, rds);
    } else {
      BlockOccur(s, p, b, rds);
      var e := p + 1 + |Render(b)|;
      OccursIn(s, e, ")");
      StopsAtParen(s, e);
      LineParse(s, p + 1, b);
      BlockParse(s, p, b, rds, e);
    }
  }

  lemma ExecUnit(t: Cmd<string>)
    requires t.Exec?
    ensures Unit(t) == Words(t.argv)
  {
  }

  lemma StopsAtParen(s: string, e: nat)
    requires Occurs(s, e, ")")
    ensures Stops(s, e, ")")
  {
    SymbolAt(s, e, ')');
  }

  lemma PipeUnfold(t: Cmd<string>)
    requires t.Pipe?
    ensures Piped(t) == Unit(t.left) + "|" + Piped(t.right)
  {
  }

  lemma ListUnfold(t: Cmd<string>)
    requires t.List?
    ensures Render(t) == Front(t.left) + ";" + Render(t.right)
  {
  }

  /** Text around a one-character operator. */
  lemma OperatorOccurs(s: string, p: nat, a: string, op: string, b: string)
    requires Occurs(s, p, a + op + b) && |op| == 1
    ensures Occurs(s, p, a) && Occurs(s, p + |a|, op) && Occurs(s, p + |a| + 1, b)
    ensures p + |a + op + b| == p + |a| + 1 + |b| <= |s|
  {
    OccursSplit(s, p, a + op, b);
    OccursSplit(s, p, a, op);
  }

  lemma StopsAt(s: string, e: nat, c: char, toks: string)
    requires Occurs(s, e, [c]) && c in "|();&<" && c in toks
    ensures Stops(s, e, toks)
  {
    SymbolAt(s, e, c);
  }

  lemma {:induction false} PipedParse(s: string, p: nat, t: Cmd<string>)
    requires Good(t) && Occurs(s, p, Piped(t)) && Stops(s, p + |Piped(t)|, "&;)")
    ensures Parsed(ParsePipe(s, p), s, p + |Piped(t)|, t)
    decreases Size(t), Order(t, 2)
  {
    hide Occurs, ParsePipe, Unit, Piped, Stops, Read, SkipWs, ParseExec;
    if t.Pipe? {
      PipeUnfold(t);
      var e := p + |Unit(t.left)|;
      OperatorOccurs(s, p, Unit(t.left), "|", Piped(t.right));
      StopsAt(s, e, '|', "|)&;");
      UnitParse(s, p, t.left);
      PipedParse(s, e + 1, t.right);
      PipeJoin(s, p, e, t);
    } else {
      PipedUnit(t);
      var end := p + |Unit(t)|;
      StopsMore(s, end, "&;)", "|)&;");
      UnitParse(s, p, t);
      PipeAlone(s, p, end, t);
    }
  }

  lemma PipedUnit(t: Cmd<string>)
    requires !t.Pipe?
    ensures Piped(t) == Unit(t)
  {
  }

  lemma StopsMore(s: string, e: nat, toks: string, more: string)
    requires Stops(s, e, toks) && forall k | 0 <= k < |toks| :: toks[k] in more
    ensures Stops(s, e, more)
  {
  }

  lemma PipeJoin(s: string, p: nat, e: nat, t: Cmd<string>)
    requires t.Pipe? && p <= e < |s| && Parsed(ParseExec(s, p), s, e, t.left) && Occurs(s, e, "|")
    requires Parsed(ParsePipe(s, e + 1), s, e + 1 + |Piped(t.right)|, t.right)
    ensures Parsed(ParsePipe(s, p), s, e + 1 + |Piped(t.right)|, t)
  {
    hide Occurs, TokenAt, SkipWs, PeekIn, ParseExec, Piped;
    SymbolAt(s, e, '|');
    PeekHere(s, e, "|");
    PipeSkip(s, e + 1);
  }

  lemma PipeAlone(s: string, p: nat, e: nat, t: Cmd<string>)
    requires p <= e <= |s| && Parsed(ParseExec(s, p), s, e, t) && Stops(s, e, "&;)")
    ensures Parsed(ParsePipe(s, p), s, e, t)
  {
    hide TokenAt, SkipWs, PeekIn, ParseExec, Read;
    StopsNot(s, e, "&;)", "|");
    PeekSkip(s, e, "|");
    SkipTwice(s, e);
  }

  /** A pipeline and the &s after it: what parseline reads before a ;. */
  predicate FrontParsed(s: string, p: nat, end: nat, t: Cmd<string>)
    requires p <= |s|
  {
    var pipe := ParsePipe(s, p);
    pipe.Ok? && Parsed(ParseBacks(s, pipe.pos, pipe.v), s, end, t)
  }

  lemma {:induction false} FrontParse(s: string, p: nat, t: Cmd<string>)
    requires Good(t) && Occurs(s, p, Front(t)) && Stops(s, p + |Front(t)|, ";)") && p <= |s|
    ensures FrontParsed(s, p, p + |Front(t)|, t)
    decreases Size(t), Order(t, 1)
  {
    hide Occurs, ParsePipe, Front, Piped, Stops, Read, SkipWs, ParseBacks, AmpText, Backs, PeekIn;
    FrontSplit(t);
    var u, n := Strip(t), Amps(t);
    var e := p + |Piped(u)|;
    OccursSplit(s, p, Piped(u), AmpText(n));
    OccursIn(s, e, AmpText(n));
    AmpsStop(s, e, n);
    PipedParse(s, p, u);
    StopsNot(s, e + n, ";)", "&");
    var pipe := ParsePipe(s, p);
    BacksSkip(s, e, pipe.v);
    BacksParse(s, e, n, pipe.v);
    ReadBacks(s, pipe.v, n);
  }

  lemma AmpsStop(s: string, e: nat, n: nat)
    requires Occurs(s, e, AmpText(n)) && Stops(s, e + n, ";)")
    ensures Stops(s, e, "&;)")
  {
    if n > 0 {
      AmpsOccur(s, e, n);
      SymbolAt(s, e, '&');
    }
  }

  lemma {:induction false} LineParse(s: string, p: nat, t: Cmd<string>)
    requires Good(t) && Occurs(s, p, Render(t)) && Stops(s, p + |Render(t)|, ")")
    ensures Parsed(ParseLine(s, p), s, p + |Render(t)|, t)
    decreases Size(t), Order(t, 0)
  {
    hide Occurs, ParseLine, ParsePipe, Front, Render, Stops, Read, SkipWs, FrontParsed;
    OccursIn(s, p, Render(t));
    if t.List? {
      ListUnfold(t);
      var e := p + |Front(t.left)|;
      OperatorOccurs(s, p, Front(t.left), ";", Render(t.right));
      StopsAt(s, e, ';', ";)");
      FrontParse(s, p, t.left);
      LineParse(s, e + 1, t.right);
      LineJoin(s, p, e, t);
    } else {
      RenderFront(t);
      var end := p + |Front(t)|;
      StopsMore(s, end, ")", ";)");
      FrontParse(s, p, t);
      LineAlone(s, p, end, t);
    }
  }

  lemma RenderFront(t: Cmd<string>)
    requires !t.List?
    ensures Render(t) == Front(t)
  {
  }

  lemma LineJoin(s: string, p: nat, e: nat, t: Cmd<string>)
    requires t.List? && p <= e < |s| && FrontParsed(s, p, e, t.left) && Occurs(s, e, ";")
    requires Parsed(ParseLine(s, e + 1), s, e + 1 + |Render(t.right)|, t.right)
    ensures Parsed(ParseLine(s, p), s, e + 1 + |Render(t.right)|, t)
  {
    hide Occurs, TokenAt, SkipWs, PeekIn, ParsePipe, ParseBacks, Render;
    SymbolAt(s, e, ';');
    PeekHere(s, e, ";");
    LineSkip(s, e + 1);
  }

  lemma LineAlone(s: string, p: nat, e: nat, t: Cmd<string>)
    requires p <= e && p <= |s| && FrontParsed(s, p, e, t) && Stops(s, e, ")")
    ensures Parsed(ParseLine(s, p), s, e, t)
  {
    hide TokenAt, SkipWs, PeekIn, ParsePipe, ParseBacks, Read;
    StopsNot(s, e, ")", ";");
    PeekSkip(s, e, ";");
    SkipTwice(s, e);
  }

  /** Rendering any tree and parsing it gives back the same tree. */
  lemma RoundTrip(t: Cmd<string>)
    requires Good(t)
    ensures var r := ParseCmd(Render(t)); r.Ok? && Read(Render(t), r.v) == t
  {
    var s := Render(t);
    assert Occurs(s, 0, s);
    LineParse(s, 0, t);
  }
}
