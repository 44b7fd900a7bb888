/** grep's regular-expression matcher against a declarative reading of its patterns. Strings are
    C strings without their terminator.
 */
module Grep {

  /** One element of a pattern: a literal, `.`, a starred character, or a final `$`. */
  datatype Item = Lit(c: char) | Any | Star(c: char) | End

  /** How the matcher reads a pattern. `*` is special only right after another character, `$` only
      as the whole remaining pattern. */
  function Items(re: string): (its: seq<Item>)
    decreases |re|
  {
    if re == "" then []
    else if |re| >= 2 && re[1] == '*' then [Star(re[0])] + Items(re[2..])
    else if re == "$" then [End]
    else [if re[0] == '.' then Any else Lit(re[0])] + Items(re[1..])
  }

  function Shown(it: Item): string {
    match it
    case Lit(c) => [c]
    case Any => "."
    case Star(c) => [c, '*']
    case End => "$"
  }

  /** The pattern written back. */
  function Show(its: seq<Item>): string {
    if its == [] then "" else Shown(its[0]) + Show(its[1..])
  }

  predicate StarNext(its: seq<Item>) { its != [] && (its[0] == Lit('*') || its[0] == Star('*')) }

  /** Items that some pattern stands for: a `.` is never a literal, a character before `*` is
      starred, and `$` is the end exactly when it comes last. */
  predicate Readable(its: seq<Item>) {
    its == [] ||
    (Readable(its[1..]) &&
     match its[0]
     case Lit(c) => c != '.' && (c == '$' ==> its[1..] != []) && !StarNext(its[1..])
     case Any => !StarNext(its[1..])
     case Star(c) => true
     case End => its[1..] == [])
  }

  /** Reading a pattern loses nothing, and yields items only a pattern can yield. */
  lemma {:induction false} ShowItems(re: string)
    ensures Show(Items(re)) == re && Readable(Items(re))
    decreases |re|
  {
    if re != "" {
      var rest := if |re| >= 2 && re[1] == '*' then re[2..] else re[1..];
      ShowItems(rest);
      if StarNext(Items(rest)) {
        assert Show(Items(rest))[0] == '*';
      }
      if re != "$" || rest != "" {
        assert Items(re)[1..] == Items(rest);
      }
    }
  }

  /** Every readable sequence of items is what its own text is read as. */
  lemma {:induction false} ItemsShow(its: seq<Item>)
    requires Readable(its)
    ensures Items(Show(its)) == its
    decreases |its|
  {
    if its != [] {
      ItemsShow(its[1..]);
      var re, rest := Show(its), Show(its[1..]);
      assert re[|Shown(its[0])|..] == rest;
      assert rest == "" <==> its[1..] == [];
      assert !its[0].Star? && |re| >= 2 ==> re[1] == rest[0] == Shown(its[1])[0];
      assert its == [its[0]] + its[1..];
    }
  }

  predicate Repeats(c: char, w: string) {
    forall k :: 0 <= k < |w| ==> w[k] == c || c == '.'
  }

  /** The words an item stands for. */
  predicate Spells(it: Item, w: string) {
    match it
    case Lit(c) => w == [c]
    case Any => |w| == 1
    case Star(c) => Repeats(c, w)
    case End => w == ""
  }

  function Concat(ws: seq<string>): (s: string) {
    if ws == [] then "" else ws[0] + Concat(ws[1..])
  }

  predicate IsPrefix(w: string, text: string) {
    |w| <= |text| && text[..|w|] == w
  }

  /** `ws` splits a prefix of text (all of it, under a final `$`) into words the items stand for. */
  predicate Splits(its: seq<Item>, text: string, ws: seq<string>) {
    && |ws| == |its| && (forall i :: 0 <= i < |its| ==> Spells(its[i], ws[i]))
    && IsPrefix(Concat(ws), text)
    && (its != [] && its[|its| - 1] == End ==> Concat(ws) == text)
  }

  /** The items match at the beginning of text. */
  ghost predicate Denotes(its: seq<Item>, text: string) {
    exists ws :: Splits(its, text, ws)
  }

  /** The pattern matches somewhere in text, or at its beginning under a leading `^`. */
  ghost predicate Matches(re: string, text: string) {
    if re != "" && re[0] == '^' then Denotes(Items(re[1..]), text)
    else exists k :: 0 <= k <= |text| && Denotes(Items(re), text[k..])
  }

  lemma DenotesNothing(text: string)
    ensures Denotes([], text)
  {
    assert Splits([], text, []);
  }

  lemma DenotesEnd(text: string)
    ensures Denotes([End], text) <==> text == ""
  {
    assert Concat([""]) == "" + Concat([]);
    if text == "" {
      assert Splits([End], text, [""]);
    }
    if ws :| Splits([End], text, ws) {
      assert Spells([End][0], ws[0]);
      assert ws == [""];
    }
  }

  /** Taking off the first item: it stands for some prefix of the text, the others for the rest. */
  lemma DenotesCons(it: Item, its: seq<Item>, text: string)
    requires it != End
    ensures Denotes([it] + its, text)
       <==> exists k :: 0 <= k <= |text| && Spells(it, text[..k]) && Denotes(its, text[k..])
  {
    if ws :| Splits([it] + its, text, ws) {
      SplitsTail(it, its, text, ws);
      assert Denotes(its, text[|ws[0]|..]);
    }
    if k :| 0 <= k <= |text| && Spells(it, text[..k]) && Denotes(its, text[k..]) {
      var ws :| Splits(its, text[k..], ws);
      SplitsMore(it, its, text, k, ws);
    }
  }

  lemma SplitsTail(it: Item, its: seq<Item>, text: string, ws: seq<string>)
    requires it != End && Splits([it] + its, text, ws)
    ensures |ws[0]| <= |text| && Spells(it, text[..|ws[0]|]) && Splits(its, text[|ws[0]|..], ws[1..])
  {
    var all, k := [it] + its, |ws[0]|;
    assert Spells(all[0], ws[0]);
    assert text[..k] == ws[0];
    forall i | 0 <= i < |its| ensures Spells(its[i], ws[1..][i]) {
      assert Spells(all[i + 1], ws[i + 1]);
    }
    assert text[k..][..|Concat(ws[1..])|] == text[..|Concat(ws)|][k..];
  }

  lemma SplitsMore(it: Item, its: seq<Item>, text: string, k: nat, ws: seq<string>)
    requires it != End && k <= |text| && Spells(it, text[..k]) && Splits(its, text[k..], ws)
    ensures Splits([it] + its, text, [text[..k]] + ws)
  {
    var all := [text[..k]] + ws;
    assert all[1..] == ws;
    assert Concat(all) == text[..k] + Concat(ws);
    assert text[..k + |Concat(ws)|] == text[..k] + text[k..][..|Concat(ws)|];
    assert text == text[..k] + text[k..];
  }

  /** One literal or `.`: exactly one character. */
  lemma DenotesOne(it: Item, its: seq<Item>, text: string)
    requires it.Lit? || it.Any?
    ensures Denotes([it] + its, text)
       <==> text != "" && (it.Any? || it.c == text[0]) && Denotes(its, text[1..])
  {
    DenotesCons(it, its, text);
    if text != "" {
      assert text[..1] == [text[0]];
    }
  }

  /** matchhere: the pattern matches at the beginning of text. */
  method MatchHere(re: string, text: string) returns (r: bool)
    ensures r <==> Denotes(Items(re), text)
    decreases |re|, 0
  {
    if re == "" {
      DenotesNothing(text);
      return true;
    }
    if |re| >= 2 && re[1] == '*' {
      r := MatchStar(re[0], re[2..], text);
      return;
    }
    if re == "$" {
      DenotesEnd(text);
      return text == "";
    }
    var it := if re[0] == '.' then Any else Lit(re[0]);
    DenotesOne(it, Items(re[1..]), text);
    if text != "" && (re[0] == '.' || re[0] == text[0]) {
      r := MatchHere(re[1..], text[1..]);
      return;
    }
    return false;
  }

  /** matchstar: c*re matches at the beginning of text. */
  method MatchStar(c: char, re: string, text: string) returns (r: bool)
    ensures r <==> Denotes([Star(c)] + Items(re), text)
    decreases |re|, 1
  {
    DenotesCons(Star(c), Items(re), text);
    var k := 0;
    while true
      invariant 0 <= k <= |text| && Repeats(c, text[..k])
      invariant forall j :: 0 <= j < k ==> !Denotes(Items(re), text[j..])
      decreases |text| - k
    {
      r := MatchHere(re, text[k..]);
      if r {
        assert Spells(Star(c), text[..k]);
        return;
      }
      if k == |text| || !(text[k] == c || c == '.') {
        break;
      }
      assert text[..k + 1] == text[..k] + [text[k]];
      k := k + 1;
    }
    assert forall j :: k < j <= |text| ==> text[..j][k] == text[k];
    return false;
  }

  /** match: sound and complete for every pattern and text. */
  method Match(re: string, text: string) returns (r: bool)
    ensures r <==> Matches(re, text)
  {
    if re != "" && re[0] == '^' {
      r := MatchHere(re[1..], text);
      return;
    }
    var k := 0;
    while true
      invariant 0 <= k <= |text|
      invariant forall j :: 0 <= j < k ==> !Denotes(Items(re), text[j..])
      decreases |text| - k
    {
      r := MatchHere(re, text[k..]);
      if r {
        return;
      }
      if k == |text| {
        break;
      }
      k := k + 1;
    }
    return false;
  }
}
