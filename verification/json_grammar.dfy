// Which texts the parser accepts, and what they mean: a text is parsed exactly
// when it is laid out like a tree of the grammar, with any white space and any
// lines of comment between the tokens.

module JsonGrammar {
  import opened Json
  import opened JsonRoundTrip

  /* ---- trees and their text; every gap stands before a token ---- */

  datatype Tree =
    | Word(gap: string, word: string)
    | Whole(gap: string, digits: string)
    | Fraction(gap: string, digits: string, decimals: string)
    | Quoted(gap: string, body: string)
    | Bracket(gap: string, items: seq<Item>, close: string)       // close: the gap inside []
    | Brace(gap: string, pairs: seq<Pair>, close: string)

  datatype Item = Item(tree: Tree, after: string)
  datatype Pair = Pair(gap: string, key: string, before: string, tree: Tree, after: string)

  function Text(t: Tree): string
    decreases t, 1
  {
    t.gap + Core(t)
  }

  function Core(t: Tree): string
    decreases t, 0
  {
    match t
    case Word(_, word) => word
    case Whole(_, digits) => digits
    case Fraction(_, digits, decimals) => digits + ("." + decimals)
    case Quoted(_, body) => "\"" + body + "\""
    case Bracket(_, items, close) => "[" + (if items == [] then close + "]" else ItemsText(items))
    case Brace(_, pairs, close) => "{" + (if pairs == [] then close + "}" else PairsText(pairs))
  }

  function ItemsText(items: seq<Item>): string
    decreases items
  {
    if items == [] then ""
    else
      var i := items[0];
      Text(i.tree) + (i.after + (if |items| == 1 then "]" else "," + ItemsText(items[1..])))
  }

  function PairsText(pairs: seq<Pair>): string
    decreases pairs
  {
    if pairs == [] then ""
    else
      var p := pairs[0];
      p.gap + ("\"" + p.key + "\"" + (p.before + (":" + (Text(p.tree) + (p.after +
        (if |pairs| == 1 then "}" else "," + PairsText(pairs[1..])))))))
  }

  /* ---- what they mean ---- */

  function AssignAll(d: seq<(string, JObject)>, more: seq<(string, JObject)>): seq<(string, JObject)>
    decreases |more|
  {
    if more == [] then d else AssignAll(Assign(d, more[0].0, more[0].1), more[1..])
  }

  function Meaning(t: Tree): JObject
    decreases t
  {
    match t
    case Word(_, word) => if word == "null" then Null else Bool(word == "true")
    case Whole(_, digits) => Int(if AllDigits(digits) then ToInt(Decimal(digits)) else 0)
    case Fraction(_, digits, decimals) => Double(digits + ("." + decimals))
    case Quoted(_, body) => Str(body)
    case Bracket(_, items, _) => List(Values(items))
    case Brace(_, pairs, _) => Dict(AssignAll([], Entries(pairs)))
  }

  function Values(items: seq<Item>): (vs: seq<JObject>)
    ensures |vs| == |items|
    decreases items
  {
    if items == [] then [] else [Meaning(items[0].tree)] + Values(items[1..])
  }

  function Entries(pairs: seq<Pair>): (es: seq<(string, JObject)>)
    ensures |es| == |pairs|
    decreases pairs
  {
    if pairs == [] then [] else [(pairs[0].key, Meaning(pairs[0].tree))] + Entries(pairs[1..])
  }

  /* ---- which trees are well formed ---- */

  predicate AllDigits(ds: string) {
    forall i :: 0 <= i < |ds| ==> '0' <= ds[i] <= '9'
  }

  predicate White(c: char) {
    c == ' ' || 9 <= c as int <= 13
  }

  // White space and whole lines of comment.
  predicate Gap(g: string)
    decreases |g|
  {
    if g == "" then true
    else if White(g[0]) then Gap(g[1..])
    else IsComment(g) && LineEnd(g) < |g| && Gap(g[LineEnd(g) + 1..])
  }

  predicate WellFormed(t: Tree)
    decreases t
  {
    && Gap(t.gap)
    && match t
       case Word(_, word) => word == "null" || word == "true" || word == "false"
       case Whole(_, digits) => digits != [] && AllDigits(digits)
       case Fraction(_, digits, decimals) =>
         digits != [] && AllDigits(digits) && decimals != [] && AllDigits(decimals)
       case Quoted(_, body) => WellEscaped(body)
       case Bracket(_, items, close) => Gap(close) && forall i :: 0 <= i < |items| ==> ItemOk(items[i])
       case Brace(_, pairs, close) => Gap(close) && forall i :: 0 <= i < |pairs| ==> PairOk(pairs[i])
  }

  predicate ItemOk(i: Item)
    decreases i
  {
    WellFormed(i.tree) && Gap(i.after)
  }

  predicate PairOk(p: Pair)
    decreases p
  {
    Gap(p.gap) && WellEscaped(p.key) && Gap(p.before) && WellFormed(p.tree) && Gap(p.after)
  }

  // A number ends where its digits end.
  predicate EndsBefore(t: Tree, rest: string) {
    match t
    case Whole(_, _) => rest == [] || (!IsDigit(rest[0]) && rest[0] != '.')
    case Fraction(_, _, _) => rest == [] || !IsDigit(rest[0])
    case _ => true
  }

  /* ---- gaps and tokens ---- */

  // What a token starts with.
  predicate AtToken(u: string) {
    u != [] && !White(u[0]) && !IsComment(u)
  }

  lemma {:induction false} WhiteIsSpace(c: char)
    ensures White(c) <==> IsSpace(c)
  {
  }

  // How the search for the next token goes on.
  lemma {:induction false} TokenStep(t: string)
    ensures t != [] && White(t[0]) ==> NextToken(t) == NextToken(t[1..])
    ensures IsComment(t) && LineEnd(t) < |t| ==> NextToken(t) == NextToken(t[LineEnd(t) + 1..])
    ensures IsComment(t) && LineEnd(t) == |t| ==> NextToken(t) == OpenComment
    ensures AtToken(t) ==> NextToken(t) == Tok(t)
    ensures t == [] ==> NextToken(t) == NoToken
  {
    hide White, IsSpace, LineEnd, IsComment, SkipSpace, SkipComments;
    SpaceStep(t);
    CommentStep(t);
    CommentStarts(t);
  }

  lemma {:induction false} SpaceStep(t: string)
    ensures SkipSpace(t) == if t != [] && White(t[0]) then SkipSpace(t[1..]) else t
  {
    if t != [] { WhiteIsSpace(t[0]); }
  }

  lemma {:induction false} CommentStep(t: string)
    ensures SkipComments(t) ==
      if t == [] then NoToken
      else if !IsComment(t) then Tok(t)
      else if LineEnd(t) == |t| then OpenComment
      else SkipComments(SkipSpace(t[LineEnd(t) + 1..]))
  {
    hide SkipSpace, LineEnd;
  }

  lemma {:induction false} SlashIsNotWhite()
    ensures !White('/')
  {
  }

  lemma {:induction false} CommentStarts(t: string)
    ensures IsComment(t) ==> t != [] && !White(t[0])
  {
  }

  lemma {:induction false} GapThenToken(g: string, u: string)
    requires Gap(g) && AtToken(u)
    ensures NextToken(g + u) == Tok(u)
    decreases |g|
  {
    hide NextToken, White, LineEnd, AtToken;
    TokenStep(g + u);
    if g == "" {
      assert g + u == u;
    } else if White(g[0]) {
      assert (g + u)[1..] == g[1..] + u;
      GapThenToken(g[1..], u);
    } else {
      var k := LineEnd(g);
      assert LineEnd(g + u) == k by { assert (g + u)[k] == '\n'; }
      assert (g + u)[k + 1..] == g[k + 1..] + u;
      GapThenToken(g[k + 1..], u);
    }
  }

  // A gap in front of a gap.
  lemma {:induction false} LongerGap(c: char, g: string)
    requires White(c) && Gap(g)
    ensures Gap([c] + g)
  {
    assert ([c] + g)[1..] == g;
  }

  lemma {:induction false} CommentGap(line: string, g: string)
    requires IsComment(line) && LineEnd(line) == |line| - 1 && Gap(g)
    ensures Gap(line + g)
  {
    hide LineEnd;
    var t := line + g;
    assert t[|line| - 1] == '\n' && t[|line|..] == g;
    assert LineEnd(t) == |line| - 1;
    SlashIsNotWhite();
  }

  // The part of a text before its first token is a gap.
  lemma {:induction false} GapOf(t: string) returns (g: string)
    requires NextToken(t).Tok?
    ensures Gap(g) && t == g + NextToken(t).rest && AtToken(NextToken(t).rest)
    decreases |t|
  {
    hide NextToken, White, LineEnd, Gap, IsComment;
    TokenStep(t);
    if AtToken(t) {
      g := "";
      assert Gap(g) by { EmptyGap(); }
    } else if White(t[0]) {
      g := GapOf(t[1..]);
      LongerGap(t[0], g);
      g := [t[0]] + g;
    } else {
      var k := LineEnd(t);
      g := GapOf(t[k + 1..]);
      var line := t[..k + 1];
      assert IsComment(line) && LineEnd(line) == k by { LineOf(t); }
      CommentGap(line, g);
      g := line + g;
    }
  }

  lemma {:induction false} EmptyGap()
    ensures Gap("")
  {
  }

  lemma {:induction false} LineOf(t: string)
    requires IsComment(t) && LineEnd(t) < |t|
    ensures var line := t[..LineEnd(t) + 1]; IsComment(line) && LineEnd(line) == |line| - 1
  {
    hide LineEnd;
    var line := t[..LineEnd(t) + 1];
    assert line[|line| - 1] == '\n' && forall i :: 0 <= i < |line| - 1 ==> line[i] != '\n';
    assert line[0] == t[0];
  }

  /* ---- every tree is parsed to what it means ---- */

  // Where parsing starts is the first token.
  lemma {:induction false} SameStart(t: string, u: string)
    requires NextToken(t) == Tok(u) && NextToken(u) == Tok(u)
    ensures ParseAt(t) == ParseAt(u)
    ensures forall items :: ParseItems(t, items) == ParseItems(u, items)
    ensures forall d :: ParseEntries(t, d) == ParseEntries(u, d)
  {
    hide NextToken, ParseNumber, ParseString, ParseList, ParseDict;
  }

  lemma {:induction false} ParseBehindGap(g: string, u: string)
    requires Gap(g) && AtToken(u)
    ensures ParseAt(g + u) == ParseAt(u)
  {
    hide NextToken, AtToken, ParseAt, ParseItems, ParseEntries;
    GapThenToken(g, u);
    TokenStep(u);
    SameStart(g + u, u);
  }

  // Which branch a token takes.
  lemma {:induction false} BranchAt(u: string)
    requires AtToken(u)
    ensures u[0] == '-' || IsDigit(u[0]) ==> ParseAt(u) == ParseNumber(u)
    ensures u[0] == '"' ==> ParseAt(u) == ParseString(u)
    ensures u[0] == '[' ==> ParseAt(u) == ParseList(u)
    ensures u[0] == '{' ==> ParseAt(u) == ParseDict(u)
  {
    hide NextToken, ParseNumber, ParseString, ParseList, ParseDict;
    TokenStep(u);
  }

  lemma {:induction false} CoreStarts(t: Tree, rest: string)
    requires WellFormed(t)
    ensures AtToken(Core(t) + rest) && (Core(t) + rest)[0] !in {']', '}', ',', ':'}
  {
    if t.Whole? || t.Fraction? { assert '0' <= t.digits[0] <= '9'; }
  }

  lemma {:induction false} CloserStarts(c: char, rest: string)
    requires c in {']', '}', ',', ':'}
    ensures AtToken([c] + rest) && ([c] + rest)[1..] == rest
  {
  }

  // Nothing that can follow inside a list continues a number.
  lemma {:induction false} GapEnds(t: Tree, g: string, c: char, rest: string)
    requires Gap(g) && c in {']', '}', ','}
    ensures EndsBefore(t, g + ([c] + rest))
  {
  }

  lemma {:induction false} NumbersParse(t: Tree, rest: string)
    requires WellFormed(t) && EndsBefore(t, rest) && (t.Whole? || t.Fraction?)
    ensures ParseNumber(Core(t) + rest) == Parsed(Meaning(t), rest)
  {
    hide Decimal, ToInt, Span, Gap;
    var u := Core(t) + rest;
    if t.Whole? {
      SpanIs(t.digits, rest);
      assert u[..|t.digits|] == t.digits && u[|t.digits|..] == rest;
    } else {
      var k, m := |t.digits|, |t.decimals|;
      assert u == t.digits + ("." + (t.decimals + rest));
      SpanIs(t.digits, "." + (t.decimals + rest));
      SpanIs(t.decimals, rest);
      assert u[k] == '.' && u[k + 1..] == t.decimals + rest;
      assert u[..k + 1 + m] == Core(t) && u[k + 1 + m..] == rest;
    }
  }

  lemma {:induction false} ParsesTree(t: Tree, rest: string)
    requires WellFormed(t) && EndsBefore(t, rest)
    ensures ParseAt(Text(t) + rest) == Parsed(Meaning(t), rest)
    decreases t, 2
  {
    hide ParseAt, AtToken, Core, WellFormed, Meaning;
    var u := Core(t) + rest;
    assert Text(t) + rest == t.gap + u;
    CoreStarts(t, rest);
    assert Gap(t.gap) by { GapOfTree(t); }
    ParseBehindGap(t.gap, u);
    ParsesCore(t, rest);
  }

  lemma {:induction false} GapOfTree(t: Tree)
    requires WellFormed(t)
    ensures Gap(t.gap)
  {
  }

  lemma {:induction false} ParsesCore(t: Tree, rest: string)
    requires WellFormed(t) && EndsBefore(t, rest)
    ensures ParseAt(Core(t) + rest) == Parsed(Meaning(t), rest)
    decreases t, 1
  {
    hide ParseAt, AtToken, ParseNumber, ParseString, ParseList, ParseDict, WellEscaped, Gap, AllDigits;
    var u := Core(t) + rest;
    CoreStarts(t, rest);
    BranchAt(u);
    match t
    case Word(_, _) => WordsThenParse(rest);
    case Whole(_, digits) => assert IsDigit(u[0]) by { FirstDigit(digits, u); } NumbersParse(t, rest);
    case Fraction(_, digits, _) => assert IsDigit(u[0]) by { FirstDigit(digits, u); } NumbersParse(t, rest);
    case Quoted(_, body) => KeyThenParse(body, rest);
    case Bracket(_, items, close) => ParsesBracket(items, close, rest);
    case Brace(_, pairs, close) => ParsesBrace(pairs, close, rest);
  }

  lemma {:induction false} FirstDigit(digits: string, u: string)
    requires digits != [] && AllDigits(digits) && digits <= u
    ensures IsDigit(u[0])
  {
    assert '0' <= digits[0] <= '9';
  }

  // The text behind an opening bracket, and the token it starts with.
  lemma {:induction false} ItemsStart(items: seq<Item>, rest: string) returns (w: string)
    requires items != [] && forall i :: 0 <= i < |items| ==> ItemOk(items[i])
    ensures NextToken(ItemsText(items) + rest) == Tok(w) && AtToken(w) && w[0] != ']'
  {
    hide Core, Gap, AtToken, NextToken;
    var i := items[0];
    var more := i.after + (if |items| == 1 then "]" else "," + ItemsText(items[1..])) + rest;
    w := Core(i.tree) + more;
    assert ItemsText(items) + rest == i.tree.gap + w;
    assert ItemOk(i);
    GapOfTree(i.tree);
    CoreStarts(i.tree, more);
    GapThenToken(i.tree.gap, w);
  }

  lemma {:induction false} ParsesBracket(items: seq<Item>, close: string, rest: string)
    requires Gap(close) && forall i :: 0 <= i < |items| ==> ItemOk(items[i])
    ensures var body := if items == [] then close + "]" else ItemsText(items);
            ParseList("[" + body + rest) == Parsed(List(Values(items)), rest)
    decreases items, 1
  {
    hide ParseAt, ParseItems, AtToken, NextToken, ItemOk, Gap, ItemsText;
    var body := if items == [] then close + "]" else ItemsText(items);
    assert ("[" + body + rest)[1..] == body + rest;
    if items == [] {
      CloserStarts(']', rest);
      GapThenToken(close, "]" + rest);
      assert body + rest == close + ("]" + rest);
    } else {
      var w := ItemsStart(items, rest);
      TokenStep(w);
      SameStart(body + rest, w);
      ParsesItems(items, [], rest);
      assert [] + Values(items) == Values(items);
    }
  }

  lemma {:induction false} ParsesItems(items: seq<Item>, done: seq<JObject>, rest: string)
    requires items != [] && forall i :: 0 <= i < |items| ==> ItemOk(items[i])
    ensures ParseItems(ItemsText(items) + rest, done) == Parsed(List(done + Values(items)), rest)
    decreases items, 0
  {
    hide ParseAt, NextToken, AtToken, Gap, Text, Meaning, WellFormed, EndsBefore;
    var i := items[0];
    assert ItemOk(i);
    var c := if |items| == 1 then ']' else ',';
    var more := if |items| == 1 then rest else ItemsText(items[1..]) + rest;
    var tail := i.after + ([c] + more);
    assert ItemsText(items) + rest == Text(i.tree) + tail;
    GapEnds(i.tree, i.after, c, more);
    ParsesTree(i.tree, tail);
    CloserStarts(c, more);
    GapThenToken(i.after, [c] + more);
    if |items| == 1 {
      assert Values(items) == [Meaning(i.tree)];
    } else {
      ParsesItems(items[1..], done + [Meaning(i.tree)], rest);
      assert done + Values(items) == done + [Meaning(i.tree)] + Values(items[1..]);
    }
  }

  lemma {:induction false} PairsStart(pairs: seq<Pair>, rest: string) returns (w: string)
    requires pairs != [] && forall i :: 0 <= i < |pairs| ==> PairOk(pairs[i])
    ensures NextToken(PairsText(pairs) + rest) == Tok(w) && AtToken(w) && w[0] != '}'
  {
    hide Gap, AtToken, NextToken, Text;
    var p := pairs[0];
    assert PairOk(p);
    var more := p.before + (":" + (Text(p.tree) + (p.after + (if |pairs| == 1 then "}" else "," + PairsText(pairs[1..])))));
    w := "\"" + p.key + "\"" + more + rest;
    assert PairsText(pairs) + rest == p.gap + w;
    QuoteStarts(p.key, more + rest);
    assert w == "\"" + p.key + "\"" + (more + rest);
    GapThenToken(p.gap, w);
  }

  lemma {:induction false} QuoteStarts(key: string, rest: string)
    ensures AtToken("\"" + key + "\"" + rest)
  {
  }

  lemma {:induction false} ParsesBrace(pairs: seq<Pair>, close: string, rest: string)
    requires Gap(close) && forall i :: 0 <= i < |pairs| ==> PairOk(pairs[i])
    ensures var body := if pairs == [] then close + "}" else PairsText(pairs);
            ParseDict("{" + body + rest) == Parsed(Dict(AssignAll([], Entries(pairs))), rest)
    decreases pairs, 1
  {
    hide ParseAt, ParseEntries, AtToken, NextToken, PairOk, Gap, PairsText;
    var body := if pairs == [] then close + "}" else PairsText(pairs);
    assert ("{" + body + rest)[1..] == body + rest;
    if pairs == [] {
      CloserStarts('}', rest);
      GapThenToken(close, "}" + rest);
      assert body + rest == close + ("}" + rest);
    } else {
      var w := PairsStart(pairs, rest);
      TokenStep(w);
      SameStart(body + rest, w);
      ParsesPairs(pairs, [], rest);
    }
  }

  // One pair, up to what follows it.
  lemma {:induction false} ParsesPair(p: Pair, tail: string)
    requires PairOk(p) && EndsBefore(p.tree, tail)
    ensures ParseMember(p.gap + ("\"" + p.key + "\"" + (p.before + (":" + (Text(p.tree) + tail)))))
         == Member(p.key, Meaning(p.tree), tail)
    decreases p, 0
  {
    hide ParseAt, NextToken, AtToken, Gap, Text, Meaning, WellFormed, EndsBefore, WellEscaped;
    var value := Text(p.tree) + tail;
    var colon := p.before + ([':'] + value);
    var quoted := "\"" + p.key + "\"" + colon;
    QuoteStarts(p.key, colon);
    ParseBehindGap(p.gap, quoted);
    KeyThenParse(p.key, colon);
    CloserStarts(':', value);
    GapThenToken(p.before, [':'] + value);
    ParsesTree(p.tree, tail);
  }

  lemma {:induction false} ParsesPairs(pairs: seq<Pair>, done: seq<(string, JObject)>, rest: string)
    requires pairs != [] && forall i :: 0 <= i < |pairs| ==> PairOk(pairs[i])
    ensures ParseEntries(PairsText(pairs) + rest, done) == Parsed(Dict(AssignAll(done, Entries(pairs))), rest)
    decreases pairs, 0
  {
    hide ParseMember, NextToken, AtToken, Gap, Text, Meaning, EndsBefore, Assign;
    var p := pairs[0];
    assert PairOk(p);
    var c := if |pairs| == 1 then '}' else ',';
    var more := if |pairs| == 1 then rest else PairsText(pairs[1..]) + rest;
    var tail := p.after + ([c] + more);
    assert PairsText(pairs) + rest == p.gap + ("\"" + p.key + "\"" + (p.before + (":" + (Text(p.tree) + tail))));
    assert Gap(p.after) by { PairGaps(p); }
    GapEnds(p.tree, p.after, c, more);
    ParsesPair(p, tail);
    CloserStarts(c, more);
    GapThenToken(p.after, [c] + more);
    var e := (p.key, Meaning(p.tree));
    assert Entries(pairs) == [e] + Entries(pairs[1..]);
    assert AssignAll(done, Entries(pairs)) == AssignAll(Assign(done, e.0, e.1), Entries(pairs[1..]));
    if |pairs| > 1 { ParsesPairs(pairs[1..], Assign(done, e.0, e.1), rest); }
  }

  lemma {:induction false} PairGaps(p: Pair)
    requires PairOk(p)
    ensures Gap(p.gap) && Gap(p.before) && Gap(p.after)
  {
  }

  /* ---- every parsed text is the text of a tree ---- */

  ghost predicate Derives(t: Tree, text: string, v: JObject, rest: string) {
    WellFormed(t) && EndsBefore(t, rest) && Meaning(t) == v && text == Text(t) + rest
  }

  // The same without a gap in front.
  ghost predicate DerivesBare(t: Tree, u: string, v: JObject, rest: string) {
    t.gap == "" && WellFormed(t) && EndsBefore(t, rest) && Meaning(t) == v && u == Core(t) + rest
  }

  // The gap of a tree is no part of its meaning.
  lemma {:induction false} Shifted(t: Tree, g: string, u: string, v: JObject, rest: string)
    requires Gap(g) && DerivesBare(t, u, v, rest)
    ensures Derives(t.(gap := g), g + u, v, rest)
  {
    hide Gap;
    assert Text(t.(gap := g)) + rest == g + (Core(t) + rest);
  }

  lemma {:induction false} Derive(t: string) returns (tree: Tree)
    requires ParseAt(t).Parsed?
    ensures Derives(tree, t, ParseAt(t).value, ParseAt(t).rest)
    decreases |t|, 2
  {
    hide ParseAt, NextToken, AtToken, Derives, DerivesBare, Gap, ParseItems, ParseEntries;
    assert NextToken(t).Tok? by { ParsedHasToken(t); }
    var u := NextToken(t).rest;
    var g := GapOf(t);
    TokenStep(u);
    SameStart(t, u);
    tree := DeriveCore(u);
    Shifted(tree, g, u, ParseAt(t).value, ParseAt(t).rest);
    tree := tree.(gap := g);
  }

  lemma {:induction false} ParsedHasToken(t: string)
    requires ParseAt(t).Parsed?
    ensures NextToken(t).Tok?
  {
    hide NextToken, ParseNumber, ParseString, ParseList, ParseDict;
  }

  lemma {:induction false} DeriveCore(u: string) returns (tree: Tree)
    requires AtToken(u) && ParseAt(u).Parsed?
    ensures DerivesBare(tree, u, ParseAt(u).value, ParseAt(u).rest)
    decreases |u|, 1
  {
    hide ParseAt, NextToken, DerivesBare, ParseNumber, ParseString, ParseList, ParseDict, White, IsComment;
    BranchAt(u);
    if u[0] == '"' {
      tree := DeriveString(u);
    } else if u[0] == '-' || IsDigit(u[0]) {
      tree := DeriveNumber(u);
    } else if u[0] == '[' {
      tree := DeriveList(u);
    } else if u[0] == '{' {
      tree := DeriveDict(u);
    } else {
      tree := DeriveWord(u);
    }
  }

  lemma {:induction false} DeriveWord(u: string) returns (tree: Tree)
    requires AtToken(u) && ParseAt(u).Parsed? && u[0] !in {'"', '-', '[', '{'} && !IsDigit(u[0])
    ensures DerivesBare(tree, u, ParseAt(u).value, ParseAt(u).rest)
  {
    hide NextToken, ParseNumber, ParseString, ParseList, ParseDict, Gap;
    TokenStep(u);
    EmptyGap();
    var word := if u[0] == 'n' then "null" else if "true" <= u then "true" else "false";
    tree := Word("", word);
    assert u == word + u[|word|..];
  }

  lemma {:induction false} DeriveString(u: string) returns (tree: Tree)
    requires u != [] && u[0] == '"' && ParseString(u).Parsed?
    ensures DerivesBare(tree, u, ParseString(u).value, ParseString(u).rest)
  {
    hide WellEscaped, CloseFrom, Gap;
    EmptyGap();
    var k := CloseFrom(u[1..], 0);
    ParsedStringClean(u[1..], k);
    tree := Quoted("", u[1..][..k]);
    assert u == "\"" + u[1..][..k] + "\"" + u[1..][k + 1..];
  }

  lemma {:induction false} DeriveNumber(u: string) returns (tree: Tree)
    requires ParseNumber(u).Parsed?
    ensures DerivesBare(tree, u, ParseNumber(u).value, ParseNumber(u).rest)
  {
    hide Decimal, ToInt, Span, Gap;
    EmptyGap();
    var k := Span(u);
    if k == |u| || u[k] != '.' {
      tree := Whole("", u[..k]);
      assert u == u[..k] + u[k..];
    } else {
      var m := Span(u[k + 1..]);
      tree := Fraction("", u[..k], u[k + 1..][..m]);
      Pointed(u, k, m);
    }
  }

  lemma {:induction false} Pointed(u: string, k: nat, m: nat)
    requires k + 1 + m <= |u| && u[k] == '.'
    ensures var decimals := u[k + 1..][..m];
            && u[..k + 1 + m] == u[..k] + ("." + decimals)
            && u == u[..k] + ("." + decimals) + u[k + 1 + m..]
            && u[k + 1 + m..] == u[k + 1..][m..]
  {
    var decimals := u[k + 1..][..m];
    assert u[..k + 1 + m] == u[..k] + ("." + decimals);
    assert u == u[..k + 1 + m] + u[k + 1 + m..];
  }

  lemma {:induction false} Opened(u: string, c: char, body: string, rest: string)
    requires u != [] && u[0] == c && u[1..] == body + rest
    ensures u == [c] + body + rest
  {
  }

  lemma {:induction false} DeriveList(u: string) returns (tree: Tree)
    requires u != [] && u[0] == '[' && ParseList(u).Parsed?
    ensures DerivesBare(tree, u, ParseList(u).value, ParseList(u).rest)
    decreases |u|, 0
  {
    hide NextToken, ParseAt, ParseItems, Gap, AtToken, ItemsText, ItemOk;
    EmptyGap();
    var t := u[1..];
    var w := NextToken(t).rest;
    var g := GapOf(t);
    if w[0] == ']' {
      tree := Bracket("", [], g);
      assert t == (g + "]") + w[1..];
      Opened(u, '[', g + "]", w[1..]);
    } else {
      TokenStep(w);
      SameStart(t, w);
      var items := DeriveItems(t, []);
      tree := Bracket("", items, "");
      assert [] + Values(items) == Values(items);
      Opened(u, '[', ItemsText(items), ParseList(u).rest);
    }
  }

  lemma {:induction false} DeriveItems(t: string, done: seq<JObject>) returns (items: seq<Item>)
    requires ParseItems(t, done).Parsed?
    ensures items != [] && forall i :: 0 <= i < |items| ==> ItemOk(items[i])
    ensures ParseItems(t, done).value == List(done + Values(items)) && t == ItemsText(items) + ParseItems(t, done).rest
    decreases |t|, 3
  {
    hide NextToken, ParseAt, Gap, AtToken, Text, Meaning, WellFormed, EndsBefore, ItemsText, Values, ItemOk;
    var tree := Derive(t);
    var v, u := ParseAt(t).value, ParseAt(t).rest;
    var g := GapOf(u);
    var w := NextToken(u).rest;
    var more := [];
    if w[0] == ',' { more := DeriveItems(w[1..], done + [v]); }
    ItemsCons(Item(tree, g), more);
    items := [Item(tree, g)] + more;
    assert w == [w[0]] + w[1..];
    assert done + ([v] + Values(more)) == done + [v] + Values(more);
  }

  lemma {:induction false} ItemsCons(i: Item, more: seq<Item>)
    ensures Values([]) == [] && Values([i] + more) == [Meaning(i.tree)] + Values(more)
    ensures ItemsText([i] + more) == Text(i.tree) + (i.after + (if more == [] then "]" else "," + ItemsText(more)))
    ensures WellFormed(i.tree) && Gap(i.after) ==> ItemOk(i)
  {
    hide Text, Meaning, WellFormed, Gap;
    assert ([i] + more)[1..] == more;
  }

  lemma {:induction false} DeriveDict(u: string) returns (tree: Tree)
    requires u != [] && u[0] == '{' && ParseDict(u).Parsed?
    ensures DerivesBare(tree, u, ParseDict(u).value, ParseDict(u).rest)
    decreases |u|, 0
  {
    hide NextToken, ParseAt, ParseEntries, Gap, AtToken, PairsText, PairOk, AssignAll;
    EmptyGap();
    var t := u[1..];
    var w := NextToken(t).rest;
    var g := GapOf(t);
    if w[0] == '}' {
      tree := Brace("", [], g);
      assert AssignAll([], []) == [] by { NothingAssigned([]); }
      assert t == (g + "}") + w[1..];
      Opened(u, '{', g + "}", w[1..]);
    } else {
      TokenStep(w);
      SameStart(t, w);
      var pairs := DerivePairs(t, []);
      tree := Brace("", pairs, "");
      Opened(u, '{', PairsText(pairs), ParseDict(u).rest);
    }
  }

  lemma {:induction false} NothingAssigned(d: seq<(string, JObject)>)
    ensures AssignAll(d, []) == d
  {
  }

  lemma {:induction false} DerivePair(t: string) returns (p: Pair)
    requires ParseMember(t).Member?
    ensures Gap(p.gap) && WellEscaped(p.key) && Gap(p.before) && WellFormed(p.tree)
    ensures var m := ParseMember(t);
            p.key == m.key && Meaning(p.tree) == m.value && EndsBefore(p.tree, m.rest)
            && t == p.gap + ("\"" + p.key + "\"" + (p.before + (":" + (Text(p.tree) + m.rest))))
    decreases |t|, 3
  {
    hide NextToken, ParseAt, Gap, AtToken, Text, WellEscaped;
    var key := Derive(t);
    var u := ParseAt(t).rest;
    var before := GapOf(u);
    var w := NextToken(u).rest;
    var tree := Derive(w[1..]);
    assert Text(key) == key.gap + ("\"" + key.body + "\"") by { TextOfQuoted(key); }
    p := Pair(key.gap, key.body, before, tree, "");
    assert w == ":" + w[1..];
  }

  lemma {:induction false} TextOfQuoted(t: Tree)
    ensures t.Quoted? ==> Text(t) == t.gap + ("\"" + t.body + "\"")
  {
  }

  lemma {:induction false} DerivePairs(t: string, done: seq<(string, JObject)>) returns (pairs: seq<Pair>)
    requires ParseEntries(t, done).Parsed?
    ensures pairs != [] && forall i :: 0 <= i < |pairs| ==> PairOk(pairs[i])
    ensures ParseEntries(t, done).value == Dict(AssignAll(done, Entries(pairs)))
    ensures t == PairsText(pairs) + ParseEntries(t, done).rest
    decreases |t|, 4
  {
    hide NextToken, ParseMember, Gap, AtToken, Text, Meaning, WellFormed, EndsBefore, Assign, WellEscaped;
    hide PairsText, Entries, PairOk;
    var p := DerivePair(t);
    var m := ParseMember(t);
    var g := GapOf(m.rest);
    p := p.(after := g);
    var w := NextToken(m.rest).rest;
    var more := [];
    if w[0] == ',' { more := DerivePairs(w[1..], Assign(done, m.key, m.value)); }
    PairsCons(p, more);
    pairs := [p] + more;
    assert w == [w[0]] + w[1..];
  }

  lemma {:induction false} PairsCons(p: Pair, more: seq<Pair>)
    ensures Entries([]) == [] && Entries([p] + more) == [(p.key, Meaning(p.tree))] + Entries(more)
    ensures PairsText([p] + more) == p.gap + ("\"" + p.key + "\"" + (p.before + (":" + (Text(p.tree) + (p.after +
              (if more == [] then "}" else "," + PairsText(more)))))))
    ensures Gap(p.gap) && WellEscaped(p.key) && Gap(p.before) && WellFormed(p.tree) && Gap(p.after) ==> PairOk(p)
  {
    hide Text, Meaning, WellFormed, Gap, WellEscaped;
    assert ([p] + more)[1..] == more;
  }

  /* ---- main results ---- */

  // For every text: it is parsed to v, up to rest, if and only if it is the
  // text of a tree that means v, followed by rest.
  lemma {:induction false} ParseExact(text: string, v: JObject, rest: string)
    ensures ParseAt(text) == Parsed(v, rest) <==> exists t :: Derives(t, text, v, rest)
  {
    hide ParseAt, Text, Meaning, WellFormed;
    if ParseAt(text) == Parsed(v, rest) { var t := Derive(text); }
    if exists t :: Derives(t, text, v, rest) {
      var t :| Derives(t, text, v, rest);
      ParsesTree(t, rest);
    }
  }

  // In a dictionary the last pair of a key counts.
  ghost predicate IsLast(more: seq<(string, JObject)>, i: nat, e: (string, JObject)) {
    i < |more| && more[i] == e && forall j :: i < j < |more| ==> more[j].0 != e.0
  }

  predicate Names(more: seq<(string, JObject)>, k: string) {
    exists j :: 0 <= j < |more| && more[j].0 == k
  }

  lemma {:induction false} LastPairCounts(d: seq<(string, JObject)>, more: seq<(string, JObject)>, e: (string, JObject))
    requires SortedKeys(d)
    ensures SortedKeys(AssignAll(d, more))
    ensures e in AssignAll(d, more) <==> (exists i :: IsLast(more, i, e)) || (e in d && !Names(more, e.0))
    decreases |more|
  {
    hide SortedKeys, Assign;
    if more != [] {
      var (k, v) := more[0];
      var rest := more[1..];
      AssignSorted(d, k, v);
      AssignIsUpdate(d, k, v, e);
      LastPairCounts(Assign(d, k, v), rest, e);
      LastOfRest(more, e);
    }
  }

  lemma {:induction false} LastOfRest(more: seq<(string, JObject)>, e: (string, JObject))
    requires more != []
    ensures Names(more, e.0) <==> more[0].0 == e.0 || Names(more[1..], e.0)
    ensures (exists i :: IsLast(more, i, e)) <==>
            (exists i :: IsLast(more[1..], i, e)) || (more[0] == e && !Names(more[1..], e.0))
  {
    var rest := more[1..];
    if i: nat :| IsLast(more, i, e) {
      forall j | i < j < |more| ensures rest[j - 1] == more[j] {}
      if i > 0 { assert IsLast(rest, i - 1, e); }
    }
    if i: nat :| IsLast(rest, i, e) {
      forall j | i + 1 < j < |more| ensures more[j].0 != e.0 { assert rest[j - 1] == more[j]; }
      assert IsLast(more, i + 1, e);
    }
    if more[0] == e && !Names(rest, e.0) {
      forall j | 0 < j < |more| ensures more[j].0 != e.0 { assert rest[j - 1] == more[j]; }
      assert IsLast(more, 0, e);
    }
    if j :| 0 <= j < |more| && more[j].0 == e.0 { assert j > 0 ==> rest[j - 1].0 == e.0; }
    if j :| 0 <= j < |rest| && rest[j].0 == e.0 { assert more[j + 1].0 == e.0; }
  }

  /* ---- what is printed ---- */

  // The tree of a value, with nothing between its tokens.
  function Bare(v: JObject): Tree
    requires Plain(v) && NonNegative(v)
    decreases v, 0
  {
    match v
    case Null => Word("", "null")
    case Bool(b) => Word("", if b then "true" else "false")
    case Int(n) => Whole("", Digits(n))
    case Str(s) => Quoted("", s)
    case List(items) => Bracket("", BareItems(items), "")
    case Dict(d) => Brace("", BarePairs(d), "")
  }

  function BareItems(items: seq<JObject>): (r: seq<Item>)
    requires forall i :: 0 <= i < |items| ==> Plain(items[i]) && NonNegative(items[i])
    ensures |r| == |items|
    decreases items
  {
    if items == [] then [] else [Item(Bare(items[0]), "")] + BareItems(items[1..])
  }

  function BarePair(e: (string, JObject)): Pair
    requires Plain(e.1) && NonNegative(e.1)
    decreases e, 1
  {
    Pair("", e.0, "", Bare(e.1), "")
  }

  function BarePairs(d: seq<(string, JObject)>): (r: seq<Pair>)
    requires forall i :: 0 <= i < |d| ==> Plain(d[i].1) && NonNegative(d[i].1)
    ensures |r| == |d|
    decreases d
  {
    if d == [] then [] else [BarePair(d[0])] + BarePairs(d[1..])
  }

  // The printer writes the tokens of the value, and nothing between them.
  lemma {:induction false} PrintIsBare(v: JObject)
    requires Plain(v) && NonNegative(v)
    ensures Text(Bare(v)) == Print(v)
    decreases v, 0
  {
    match v
    case List(items) =>
      ItemsAreBare(items);
      if items == [] { assert PrintItems(items) == ""; }
    case Dict(d) =>
      PairsAreBare(d);
      if d == [] { assert PrintEntries(d) == ""; }
    case _ =>
  }

  lemma {:induction false} ItemsAreBare(items: seq<JObject>)
    requires forall i :: 0 <= i < |items| ==> Plain(items[i]) && NonNegative(items[i])
    ensures items != [] ==> ItemsText(BareItems(items)) == PrintItems(items) + "]"
    decreases items
  {
    hide Print, Text, Bare;
    if items != [] {
      PrintIsBare(items[0]);
      ItemsAreBare(items[1..]);
      ItemsCons(Item(Bare(items[0]), ""), BareItems(items[1..]));
    }
  }

  lemma {:induction false} PairsAreBare(d: seq<(string, JObject)>)
    requires forall i :: 0 <= i < |d| ==> Plain(d[i].1) && NonNegative(d[i].1)
    ensures d != [] ==> PairsText(BarePairs(d)) == PrintEntries(d) + "}"
    decreases d
  {
    hide Print, Text, Bare;
    if d != [] {
      PairIsBare(d[0]);
      PairsAreBare(d[1..]);
      PairsCons(BarePair(d[0]), BarePairs(d[1..]));
    }
  }

  lemma {:induction false} PairIsBare(e: (string, JObject))
    requires Plain(e.1) && NonNegative(e.1)
    ensures Text(BarePair(e).tree) == Print(e.1)
    decreases e, 1
  {
    PrintIsBare(e.1);
  }
}
