/** Every command tree can be written down and parsed back. */
module ShellRoundTrip {
  import opened ShellGrammar

  // --- trees with their words as strings ---

  function Text(s: string, r: Range): (w: string) {
    if r.q <= r.eq <= |s| then s[r.q..r.eq] else ""
  }

  function Texts(s: string, rs: seq<Range>): (ws: seq<string>) {
    seq(|rs|, k requires 0 <= k < |rs| => Text(s, rs[k]))
  }

  function ReadRedir(s: string, rd: Redirection<Range>): Redirection<string> {
    Redirection(rd.kind, Text(s, rd.file))
  }

  function ReadRedirs(s: string, rds: seq<Redirection<Range>>): (r: seq<Redirection<string>>) {
    seq(|rds|, k requires 0 <= k < |rds| => ReadRedir(s, rds[k]))
  }

  /** The command with its ranges replaced by what they cover. */
  function Read(s: string, cmd: Cmd<Range>): (t: Cmd<string>) {
    match cmd
    case Exec(argv) => Exec(Texts(s, argv))
    case Redir(c, rd) => Redir(Read(s, c), ReadRedir(s, rd))
    case Pipe(l, r) => Pipe(Read(s, l), Read(s, r))
    case List(l, r) => List(Read(s, l), Read(s, r))
    case Back(c) => Back(Read(s, c))
  }

  lemma {:induction false} ReadWrap(s: string, cmd: Cmd<Range>, rds: seq<Redirection<Range>>)
    ensures Read(s, Wrap(cmd, rds)) == Wrap(Read(s, cmd), ReadRedirs(s, rds))
    decreases |rds|
  {
    if rds != [] {
      var front := rds[..|rds| - 1];
      ReadWrap(s, cmd, front);
      assert ReadRedirs(s, rds)[..|rds| - 1] == ReadRedirs(s, front);
    }
  }

  predicate GoodWord(w: string) {
    w != "" && forall k | 0 <= k < |w| :: WordChar(w[k])
  }

  predicate GoodRedirs(rds: seq<Redirection<string>>) {
    forall k | 0 <= k < |rds| :: GoodWord(rds[k].file)
  }

  predicate GoodArgs(argv: seq<string>) {
    forall k | 0 <= k < |argv| :: GoodWord(argv[k])
  }

  /** Nonempty words without white space and symbols, at most nine to a simple command. */
  predicate Good(t: Cmd<string>) {
    match t
    case Exec(argv) => |argv| < MAXARGS && GoodArgs(argv)
    case Redir(c, rd) => Good(c) && GoodWord(rd.file)
    case Pipe(l, r) => Good(l) && Good(r)
    case List(l, r) => Good(l) && Good(r)
    case Back(c) => Good(c)
  }

  // --- rendering ---

  function Words(argv: seq<string>): (s: string) {
    if argv == [] then "" else argv[0] + " " + Words(argv[1..])
  }

  function Op(k: Kind): string {
    match k case Input => "<" case Output => ">" case Append => ">>"
  }

  function Redirs(rds: seq<Redirection<string>>): (s: string) {
    if rds == [] then "" else Op(rds[0].kind) + rds[0].file + " " + Redirs(rds[1..])
  }

  /** A command as an operand of |, in parentheses if need be. */
  function Unit(t: Cmd<string>): (s: string)
    decreases t, 1
  {
    match t
    case Exec(argv) => Words(argv)
    case Redir(c, rd) => Unit(c) + Redirs([rd])
    case _ => "(" + Compound(t) + ")"
  }

  function Compound(t: Cmd<string>): (s: string)
    requires t.Pipe? || t.List? || t.Back?
    decreases t, 0
  {
    match t
    case Pipe(l, r) => Unit(l) + "|" + Piped(r)
    case List(l, r) => Front(l) + ";" + Render(r)
    case Back(c) => Front(c) + "&"
  }

  function Piped(t: Cmd<string>): (s: string)
    decreases t, 2
  {
    if t.Pipe? then Compound(t) else Unit(t)
  }

  /** A command as an operand of & or on the left of ;. */
  function Front(t: Cmd<string>): (s: string)
    decreases t, 2
  {
    if t.Pipe? || t.Back? then Compound(t) else Unit(t)
  }

  /** A whole line. */
  function Render(t: Cmd<string>): (s: string)
    decreases t, 2
  {
    if t.Pipe? || t.Back? || t.List? then Compound(t) else Unit(t)
  }

  // --- text at a position ---

  predicate Occurs(s: string, p: nat, txt: string) {
    p + |txt| <= |s| && s[p..p + |txt|] == txt
  }

  lemma OccursSplit(s: string, p: nat, a: string, b: string)
    requires Occurs(s, p, a + b)
    ensures Occurs(s, p, a) && Occurs(s, p + |a|, b)
  {
    assert (a + b)[..|a|] == a && (a + b)[|a|..] == b;
    assert s[p..p + |a|] == s[p..p + |a + b|][..|a|];
    assert s[p + |a|..p + |a| + |b|] == s[p..p + |a + b|][|a|..];
  }

  lemma Assoc(a: string, b: string, c: string)
    ensures (a + b) + c == a + (b + c)
  {
  }

  lemma OccursChar(s: string, p: nat, txt: string, k: nat)
    requires Occurs(s, p, txt) && k < |txt|
    ensures s[p + k] == txt[k]
  {
    assert s[p..p + |txt|][k] == txt[k];
  }

  /** The next character that is not white space, NUL at the end. */
  function Next(s: string, p: nat): (c: char)
    requires p <= |s|
  {
    var q := SkipWs(s, p);
    if q < |s| then s[q] else '\0'
  }

  lemma SkipTwice(s: string, p: nat)
    requires p <= |s|
    ensures SkipWs(s, SkipWs(s, p)) == SkipWs(s, p)
  {
  }

  lemma SkipOne(s: string, p: nat)
    requires p < |s| && Ws(s[p])
    ensures SkipWs(s, p) == SkipWs(s, p + 1)
  {
  }

  /** A symbol other than > at p is its own token. */
  lemma SymbolAt(s: string, p: nat, c: char)
    requires Occurs(s, p, [c]) && c in "|();&<"
    ensures SkipWs(s, p) == p && p < |s| && s[p] == c && Next(s, p) == c && TokenAt(s, p) == Token(c, p, p + 1, SkipWs(s, p + 1))
  {
    OccursChar(s, p, [c], 0);
  }

  lemma {:induction false} WordEndIs(s: string, p: nat, e: nat)
    requires p <= e < |s| && (forall k | p <= k < e :: WordChar(s[k])) && !WordChar(s[e])
    ensures WordEnd(s, p) == e
    decreases e - p
  {
    if p < e {
      WordEndIs(s, p + 1, e);
    }
  }

  /** A word followed by a space is a token. */
  lemma WordAt(s: string, p: nat, w: string)
    requires Occurs(s, p, w + " ") && GoodWord(w)
    ensures SkipWs(s, p) == p < |s| && WordChar(s[p])
    ensures TokenAt(s, p) == Token('a', p, p + |w|, SkipWs(s, p + |w| + 1)) && Text(s, Range(p, p + |w|)) == w
  {
    OccursSplit(s, p, w, " ");
    forall k | p <= k < p + |w|
      ensures WordChar(s[k])
    {
      OccursChar(s, p, w, k - p);
    }
    OccursChar(s, p + |w|, " ", 0);
    WordEndIs(s, p, p + |w|);
    SkipOne(s, p + |w|);
    assert s[p] != '>' && s[p] !in "|();&<";
  }

  /** A redirection operator is a token. */
  lemma OpAt(s: string, p: nat, k: Kind, w: string)
    requires Occurs(s, p, Op(k) + w) && GoodWord(w)
    ensures SkipWs(s, p) == p < |s| && s[p] in "<>"
    ensures var t := TokenAt(s, p); t.next == SkipWs(s, p + |Op(k)|) && KindOf(t.kind) == k
  {
    OccursSplit(s, p, Op(k), w);
    OccursChar(s, p, Op(k), 0);
    OccursChar(s, p + |Op(k)|, w, 0);
    if k == Append {
      OccursChar(s, p, Op(k), 1);
    }
  }

  // --- white space before a construct does not matter ---

  lemma TokenSkip(s: string, p: nat)
    requires p <= |s|
    ensures TokenAt(s, SkipWs(s, p)) == TokenAt(s, p)
  {
    SkipTwice(s, p);
  }

  lemma PeekSkip(s: string, p: nat, toks: string)
    requires p <= |s|
    ensures PeekIn(s, SkipWs(s, p), toks) == PeekIn(s, p, toks)
  {
    SkipTwice(s, p);
  }

  lemma RedirsSkip(s: string, p: nat)
    requires p <= |s|
    ensures ParseRedirs(s, SkipWs(s, p)) == ParseRedirs(s, p)
  {
    hide TokenAt, PeekIn, SkipWs;
    SkipTwice(s, p);
    TokenSkip(s, p);
    PeekSkip(s, p, "<>");
  }

  lemma ArgsSkip(s: string, p: nat, argc: nat)
    requires p <= |s|
    ensures ParseArgs(s, SkipWs(s, p), argc) == ParseArgs(s, p, argc)
  {
    hide TokenAt, PeekIn, SkipWs, ParseRedirs;
    SkipTwice(s, p);
    TokenSkip(s, p);
    PeekSkip(s, p, "|)&;");
  }

  lemma ExecSkip(s: string, p: nat)
    requires p <= |s|
    ensures ParseExec(s, SkipWs(s, p)) == ParseExec(s, p)
  {
    hide TokenAt, PeekIn, SkipWs, ParseRedirs, ParseArgs, ParseLine;
    TokenSkip(s, p);
    PeekSkip(s, p, "(");
    RedirsSkip(s, p);
  }

  lemma PipeSkip(s: string, p: nat)
    requires p <= |s|
    ensures ParsePipe(s, SkipWs(s, p)) == ParsePipe(s, p)
  {
    hide SkipWs, ParseExec;
    ExecSkip(s, p);
  }

  lemma BacksSkip(s: string, p: nat, cmd: Cmd<Range>)
    requires p <= |s|
    ensures ParseBacks(s, SkipWs(s, p), cmd) == ParseBacks(s, p, cmd)
  {
    hide TokenAt, PeekIn, SkipWs;
    SkipTwice(s, p);
    TokenSkip(s, p);
    PeekSkip(s, p, "&");
  }

  lemma LineSkip(s: string, p: nat)
    requires p <= |s|
    ensures ParseLine(s, SkipWs(s, p)) == ParseLine(s, p)
  {
    hide SkipWs, ParsePipe;
    PipeSkip(s, p);
  }

  // --- what may follow ---

  /** Nothing more, or one of these characters. */
  predicate Stops(s: string, p: nat, toks: string) {
    p <= |s| && (SkipWs(s, p) == |s| || PeekIn(s, p, toks))
  }

  lemma StopsNot(s: string, p: nat, toks: string, others: string)
    requires Stops(s, p, toks) && forall k | 0 <= k < |toks| :: toks[k] !in others
    ensures !PeekIn(s, p, others)
  {
  }

  // --- words and redirections ---

  lemma RedirsUnfold(rds: seq<Redirection<string>>)
    ensures Redirs([]) == "" && (rds != [] ==> Redirs(rds) == (Op(rds[0].kind) + rds[0].file + " ") + Redirs(rds[1..]))
  {
  }

  lemma RedirsOccur(s: string, p: nat, rds: seq<Redirection<string>>)
    requires Occurs(s, p, Redirs(rds)) && rds != []
    ensures var op, w := Op(rds[0].kind), rds[0].file;
            && Occurs(s, p, op + w) && Occurs(s, p + |op|, w + " ")
            && Occurs(s, p + |op| + |w| + 1, Redirs(rds[1..]))
            && |Redirs(rds)| == |op| + |w| + 1 + |Redirs(rds[1..])|
  {
    hide Occurs, Op, Redirs;
    RedirsUnfold(rds);
    OccursParts(s, p, Op(rds[0].kind), rds[0].file, Redirs(rds[1..]));
  }

  lemma OccursParts(s: string, p: nat, op: string, w: string, rest: string)
    requires Occurs(s, p, (op + w + " ") + rest)
    ensures Occurs(s, p, op + w) && Occurs(s, p + |op|, w + " ") && Occurs(s, p + |op| + |w| + 1, rest)
  {
    hide Occurs;
    OccursSplit(s, p, op + w + " ", rest);
    OccursSplit(s, p, op + w, " ");
    Assoc(op, w, " ");
    OccursSplit(s, p, op, w + " ");
  }

  lemma NoRedirs(s: string, p: nat)
    requires p <= |s| && !PeekIn(s, p, "<>")
    ensures ParseRedirs(s, p) == Ok([], SkipWs(s, p)) && ReadRedirs(s, []) == [] && Redirs([]) == ""
  {
  }

  lemma OccursIn(s: string, p: nat, txt: string)
    requires Occurs(s, p, txt)
    ensures p + |txt| <= |s|
  {
  }

  lemma {:induction false} RedirsParse(s: string, p: nat, rds: seq<Redirection<string>>)
    requires Occurs(s, p, Redirs(rds)) && p + |Redirs(rds)| <= |s| && GoodRedirs(rds) && !PeekIn(s, p + |Redirs(rds)|, "<>")
    ensures var r := ParseRedirs(s, p);
            r.Ok? && r.pos == SkipWs(s, p + |Redirs(rds)|) && ReadRedirs(s, r.v) == rds
    decreases |rds|
  {
    hide TokenAt, PeekIn, SkipWs, ParseRedirs, ReadRedirs, Occurs, Redirs, Op, KindOf, Text, GoodWord;
    if rds == [] {
      RedirsUnfold(rds);
      NoRedirs(s, p);
    } else {
      var op, w, rest := Op(rds[0].kind), rds[0].file, rds[1..];
      RedirsOccur(s, p, rds);
      OpAt(s, p, rds[0].kind, w);
      PeekHere(s, p, "<>");
      WordAt(s, p + |op|, w);
      var e := p + |op| + |w| + 1;
      RedirsParse(s, e, rest);
      RedirsSkip(s, e);
      RedirNext(s, p, p + |op|, e, rds[0].kind, w, rest);
      assert rds == [Redirection(rds[0].kind, w)] + rest;
    }
  }

  lemma PeekHere(s: string, p: nat, toks: string)
    requires p < |s| && SkipWs(s, p) == p
    ensures PeekIn(s, p, toks) <==> s[p] in toks
  {
  }

  /** One round of the redirection loop. */
  lemma RedirNext(s: string, p: nat, q: nat, e: nat, kind: Kind, w: string, rest: seq<Redirection<string>>)
    requires p <= q <= e <= |s| && PeekIn(s, p, "<>") && TokenAt(s, p).next == SkipWs(s, q) == q
    requires KindOf(TokenAt(s, p).kind) == kind && q + |w| <= e && Text(s, Range(q, q + |w|)) == w
    requires TokenAt(s, q) == Token('a', q, q + |w|, SkipWs(s, e))
    requires ParseRedirs(s, SkipWs(s, e)).Ok? && ReadRedirs(s, ParseRedirs(s, SkipWs(s, e)).v) == rest
    ensures var r := ParseRedirs(s, p);
            && r.Ok? && r.pos == ParseRedirs(s, SkipWs(s, e)).pos
            && ReadRedirs(s, r.v) == [Redirection(kind, w)] + rest
  {
    hide TokenAt, PeekIn, SkipWs;
    var more := ParseRedirs(s, SkipWs(s, e)).v;
    var first := Redirection(kind, Range(q, q + |w|));
    assert ParseRedirs(s, p).v == [first] + more;
    ReadRedirsCons(s, first, more);
  }

  lemma ReadRedirsCons(s: string, rd: Redirection<Range>, rds: seq<Redirection<Range>>)
    ensures ReadRedirs(s, [rd] + rds) == [ReadRedir(s, rd)] + ReadRedirs(s, rds)
  {
  }

  lemma ReadRedirsConcat(s: string, a: seq<Redirection<Range>>, b: seq<Redirection<Range>>)
    ensures ReadRedirs(s, a + b) == ReadRedirs(s, a) + ReadRedirs(s, b)
  {
  }

  lemma TextsCons(s: string, r: Range, rs: seq<Range>)
    ensures Texts(s, [r] + rs) == [Text(s, r)] + Texts(s, rs)
  {
  }

  /** At a stop, the argument loop ends. */
  lemma ArgsEnd(s: string, p: nat, argc: nat)
    requires Stops(s, p, "|)&;")
    ensures ParseArgs(s, p, argc) == Ok(Args([], []), SkipWs(s, p))
  {
  }

  lemma WordsOccur(s: string, p: nat, argv: seq<string>, rds: seq<Redirection<string>>)
    requires Occurs(s, p, Words(argv) + Redirs(rds)) && argv != []
    ensures Occurs(s, p, argv[0] + " ") && Occurs(s, p + |argv[0]| + 1, Words(argv[1..]) + Redirs(rds))
    ensures |Words(argv) + Redirs(rds)| == |argv[0]| + 1 + |Words(argv[1..]) + Redirs(rds)|
  {
    hide Redirs, Occurs;
    var w, tail := argv[0], Words(argv[1..]) + Redirs(rds);
    Assoc(w + " ", Words(argv[1..]), Redirs(rds));
    OccursSplit(s, p, w + " ", tail);
  }

  lemma NoWords(rds: seq<Redirection<string>>)
    ensures Words([]) + Redirs(rds) == Redirs(rds)
  {
  }

  lemma {:induction false} ArgsParse(s: string, p: nat, argv: seq<string>, rds: seq<Redirection<string>>, argc: nat)
    requires Occurs(s, p, Words(argv) + Redirs(rds)) && GoodArgs(argv) && GoodRedirs(rds) && argc + |argv| < MAXARGS
    requires argv != [] && Stops(s, p + |Words(argv) + Redirs(rds)|, "|)&;") && p <= |s|
    ensures var r := ParseArgs(s, p, argc);
            && r.Ok? && r.pos == SkipWs(s, p + |Words(argv) + Redirs(rds)|)
            && Texts(s, r.v.argv) == argv && ReadRedirs(s, r.v.rds) == rds
    decreases |argv|
  {
    hide TokenAt, PeekIn, SkipWs, WordEnd, Occurs, Words, Redirs, ParseRedirs, ParseArgs, Texts, ReadRedirs, GoodRedirs,
         Text, GoodWord, WordChar, Stops;
    var w, rest := argv[0], argv[1..];
    WordsOccur(s, p, argv, rds);
    WordAt(s, p, w);
    WordNotStop(s, p);
    var e, end := p + |w| + 1, p + |Words(argv) + Redirs(rds)|;
    OccursIn(s, e, Words(rest) + Redirs(rds));
    RedirsSkip(s, e);
    if rest == [] {
      NoWords(rds);
      StopsNot(s, end, "|)&;", "<>");
      RedirsParse(s, e, rds);
      ArgsEnd(s, end, argc + 1);
      ArgsSkip(s, end, argc + 1);
      ArgNext(s, p, argc, w, e, rds, Ok(Args([], []), SkipWs(s, end)));
      NoTexts(s);
      assert rds + [] == rds && argv == [w];
    } else {
      NoRedirsBeforeWord(s, e, rest, Words(rest) + Redirs(rds), rds);
      ArgsSkip(s, e, argc + 1);
      ArgsParse(s, e, rest, rds, argc + 1);
      NoTexts(s);
      ArgNext(s, p, argc, w, e, [], ParseArgs(s, e, argc + 1));
      assert [] + rds == rds && argv == [w] + rest;
    }
  }

  lemma NoTexts(s: string)
    ensures Texts(s, []) == [] && ReadRedirs(s, []) == []
  {
  }

  lemma WordNotStop(s: string, p: nat)
    requires p < |s| && SkipWs(s, p) == p && WordChar(s[p])
    ensures !PeekIn(s, p, "|)&;") && !PeekIn(s, p, "<>") && !PeekIn(s, p, "(")
  {
  }

  lemma NoRedirsBeforeWord(s: string, p: nat, argv: seq<string>, tail: string, rds: seq<Redirection<string>>)
    requires argv != [] && GoodArgs(argv) && tail == Words(argv) + Redirs(rds) && Occurs(s, p, tail)
    ensures ParseRedirs(s, p) == Ok([], SkipWs(s, p)) && !PeekIn(s, p, "(")
  {
    hide TokenAt, SkipWs, PeekIn, Occurs, Words, Redirs;
    WordsOccur(s, p, argv, rds);
    WordAt(s, p, argv[0]);
    WordNotStop(s, p);
  }

  /** One round of the argument loop. */
  lemma ArgNext(s: string, p: nat, argc: nat, w: string, e: nat, rds: seq<Redirection<string>>, more: Result<Args>)
    requires p < |s| && e <= |s| && argc + 1 < MAXARGS && !PeekIn(s, p, "|)&;")
    requires TokenAt(s, p) == Token('a', p, p + |w|, SkipWs(s, e)) && Text(s, Range(p, p + |w|)) == w
    requires var r := ParseRedirs(s, SkipWs(s, e));
             r.Ok? && ReadRedirs(s, r.v) == rds && ParseArgs(s, r.pos, argc + 1) == more && more.Ok?
    ensures var r := ParseArgs(s, p, argc);
            && r.Ok? && r.pos == more.pos && Texts(s, r.v.argv) == [w] + Texts(s, more.v.argv)
            && ReadRedirs(s, r.v.rds) == rds + ReadRedirs(s, more.v.rds)
  {
    hide TokenAt, PeekIn, SkipWs, ParseRedirs;
    var mine := ParseRedirs(s, SkipWs(s, e)).v;
    var r := ParseArgs(s, p, argc);
    assert r.v == Args([Range(p, p + |w|)] + more.v.argv, mine + more.v.rds);
    TextsCons(s, Range(p, p + |w|), more.v.argv);
    ReadRedirsConcat(s, mine, more.v.rds);
  }

  /** A simple command with its redirections. */
  lemma SimpleParse(s: string, p: nat, argv: seq<string>, rds: seq<Redirection<string>>)
    requires Occurs(s, p, Words(argv) + Redirs(rds)) && GoodArgs(argv) && GoodRedirs(rds) && |argv| < MAXARGS
    requires Stops(s, p + |Words(argv) + Redirs(rds)|, "|)&;")
    ensures var r := ParseExec(s, p);
            && r.Ok? && r.pos == SkipWs(s, p + |Words(argv) + Redirs(rds)|)
            && Read(s, r.v) == Wrap(Exec(argv), rds)
  {
    hide TokenAt, PeekIn, SkipWs, WordEnd, ParseExec, Occurs, Words, Redirs, ParseRedirs, ParseArgs, Texts, ReadRedirs,
         GoodRedirs, Read, Wrap;
    var tail := Words(argv) + Redirs(rds);
    var end := p + |tail|;
    OccursIn(s, p, tail);
    NoTexts(s);
    if argv == [] {
      NoWords(rds);
      NotParen(s, p, rds, end);
      StopsNot(s, end, "|)&;", "<>");
      RedirsParse(s, p, rds);
      ArgsEnd(s, end, 0);
      ArgsSkip(s, end, 0);
      SimpleIs(s, p, rds, [], []);
      assert rds + [] == rds;
    } else {
      NoRedirsBeforeWord(s, p, argv, tail, rds);
      ArgsSkip(s, p, 0);
      ArgsParse(s, p, argv, rds, 0);
      SimpleIs(s, p, [], argv, rds);
      assert [] + rds == rds;
    }
  }

  lemma NotParen(s: string, p: nat, rds: seq<Redirection<string>>, end: nat)
    requires Occurs(s, p, Redirs(rds)) && GoodRedirs(rds) && end == p + |Redirs(rds)| && Stops(s, end, "|)&;")
    ensures !PeekIn(s, p, "(")
  {
    hide Redirs, Occurs;
    if rds != [] {
      RedirsOccur(s, p, rds);
      OpAt(s, p, rds[0].kind, rds[0].file);
    } else {
      NoWords(rds);
      RedirsUnfold(rds);
    }
  }

  lemma SimpleIs(s: string, p: nat, first: seq<Redirection<string>>, argv: seq<string>, rds: seq<Redirection<string>>)
    requires p <= |s| && !PeekIn(s, p, "(")
    requires var r := ParseRedirs(s, p);
             && r.Ok? && ReadRedirs(s, r.v) == first && ParseArgs(s, r.pos, 0).Ok?
             && var a := ParseArgs(s, r.pos, 0); Texts(s, a.v.argv) == argv && ReadRedirs(s, a.v.rds) == rds
    ensures var r := ParseExec(s, p);
            r.Ok? && r.pos == ParseArgs(s, ParseRedirs(s, p).pos, 0).pos && Read(s, r.v) == Wrap(Exec(argv), first + rds)
  {
    hide PeekIn, ParseRedirs, ParseArgs;
    var r := ParseRedirs(s, p);
    var a := ParseArgs(s, r.pos, 0);
    ReadRedirsConcat(s, r.v, a.v.rds);
    ReadWrap(s, Exec(a.v.argv), r.v + a.v.rds);
  }
}
