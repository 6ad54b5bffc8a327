/**
 The recursive-descent parser of configuration directives, from its token list on. A
 token list is read as symbols: an unquoted brace or semicolon is a mark, everything else
 is a word. The parser accepts exactly the symbol lists that spell a tree.
 */
module DirectiveParser {
  import opened Wrappers

  datatype Token = Token(text: string, quoted: bool)

  /** A directive ends with a semicolon, or opens a block of its own. */
  datatype Directive = Statement(words: seq<string>) | Block(words: seq<string>, children: seq<Directive>)

  datatype Symbol = Word(text: string) | Open | Close | End

  datatype SyntaxError = UnexpectedClose | BlockWithoutDirective | EmptyDirective | Unterminated

  datatype Parsed = Parsed(tree: seq<Directive>, next: nat)

  function SymbolOf(token: Token): Symbol {
    if token.text == "}" && !token.quoted then Close
    else if token.text == "{" && !token.quoted then Open
    else if token.text == ";" && !token.quoted then End
    else Word(token.text)
  }

  function Symbols(tokens: seq<Token>): (s: seq<Symbol>)
    ensures |s| == |tokens| && forall k :: 0 <= k < |s| ==> s[k] == SymbolOf(tokens[k])
  {
    seq(|tokens|, k requires 0 <= k < |tokens| => SymbolOf(tokens[k]))
  }

  // --------------------------------------------------------------- spelling

  function Words(words: seq<string>): (s: seq<Symbol>)
    ensures |s| == |words| && forall k :: 0 <= k < |s| ==> s[k] == Word(words[k])
  {
    seq(|words|, k requires 0 <= k < |words| => Word(words[k]))
  }

  /** What follows the words of a directive. */
  function Ending(d: Directive): seq<Symbol>
    decreases d, 1
  {
    match d
    case Statement(_) => [End]
    case Block(_, children) => [Open] + (Spell(children) + [Close])
  }

  function SpellDirective(d: Directive): seq<Symbol>
    decreases d, 2
  {
    Words(d.words) + Ending(d)
  }

  function Spell(tree: seq<Directive>): seq<Symbol>
    decreases tree, 0
  {
    if tree == [] then [] else SpellDirective(tree[0]) + Spell(tree[1..])
  }

  /** Every directive has a word. */
  predicate WellFormed(tree: seq<Directive>)
    decreases tree
  {
    tree == []
    || (tree[0].words != [] && (tree[0].Block? ==> WellFormed(tree[0].children)) && WellFormed(tree[1..]))
  }

  // ---------------------------------------------------------------- parsing

  /** What the parser makes of the symbols from i on, with `words` already read of the current directive. */
  function Parse(s: seq<Symbol>, i: nat, nested: bool, words: seq<string>): (r: Result<Parsed, SyntaxError>)
    requires i <= |s|
    ensures r.Ok? ==> i <= r.value.next <= |s|
    decreases |s| - i
  {
    if i == |s| then
      if nested || words != [] then Err(Unterminated) else Ok(Parsed([], i))
    else
      match s[i]
      case Close => if nested && words == [] then Ok(Parsed([], i + 1)) else Err(UnexpectedClose)
      case Open =>
        if words == [] then Err(BlockWithoutDirective)
        else
          (match Parse(s, i + 1, true, [])
           case Err(e) => Err(e)
           case Ok(inner) => Prepend([Block(words, inner.tree)], Parse(s, inner.next, nested, [])))
      case End =>
        if words == [] then Err(EmptyDirective)
        else Prepend([Statement(words)], Parse(s, i + 1, nested, []))
      case Word(text) => Parse(s, i + 1, nested, words + [text])
  }

  function Prepend(done: seq<Directive>, r: Result<Parsed, SyntaxError>): (p: Result<Parsed, SyntaxError>)
    ensures p.Ok? <==> r.Ok?
    ensures p.Ok? ==> p.value == Parsed(done + r.value.tree, r.value.next)
    ensures p.Err? ==> p.error == r.error
  {
    match r
    case Ok(rest) => Ok(Parsed(done + rest.tree, rest.next))
    case Err(e) => Err(e)
  }

  lemma PrependNothing(r: Result<Parsed, SyntaxError>)
    ensures Prepend([], r) == r
  {
    if r.Ok? {
      assert [] + r.value.tree == r.value.tree;
    }
  }

  lemma PrependTwice(x: seq<Directive>, y: seq<Directive>, r: Result<Parsed, SyntaxError>)
    ensures Prepend(x, Prepend(y, r)) == Prepend(x + y, r)
  {
    if r.Ok? {
      assert x + (y + r.value.tree) == (x + y) + r.value.tree;
    }
  }

  function Closing(nested: bool): seq<Symbol> {
    if nested then [Close] else []
  }

  lemma {:induction false} SpellConcat(x: seq<Directive>, y: seq<Directive>)
    ensures Spell(x + y) == Spell(x) + Spell(y)
    ensures WellFormed(x + y) <==> WellFormed(x) && WellFormed(y)
  {
    if x == [] {
      assert x + y == y;
    } else {
      assert (x + y)[1..] == x[1..] + y;
      SpellConcat(x[1..], y);
    }
  }

  lemma SpellOne(d: Directive)
    ensures Spell([d]) == SpellDirective(d)
    ensures WellFormed([d]) <==> d.words != [] && (d.Block? ==> WellFormed(d.children))
  {
    assert [d][1..] == [];
  }

  /** The symbols from i to p.next, behind the words already read, spell the tree and the closing brace. */
  ghost predicate IsSpelling(s: seq<Symbol>, i: nat, nested: bool, words: seq<string>, p: Parsed) {
    && i <= p.next <= |s| && WellFormed(p.tree) && (!nested ==> p.next == |s|)
    && Words(words) + s[i..p.next] == Spell(p.tree) + Closing(nested)
  }

  lemma Unworded(s: seq<Symbol>, i: nat, nested: bool, p: Parsed)
    requires IsSpelling(s, i, nested, [], p)
    ensures s[i..p.next] == Spell(p.tree) + Closing(nested)
  {
    assert Words([]) + s[i..p.next] == s[i..p.next];
  }

  lemma SliceSplit(s: seq<Symbol>, i: nat, j: nat, k: nat)
    requires i < j <= k <= |s|
    ensures s[i..k] == [s[i]] + s[i + 1..j] + s[j..k]
    ensures s[i..k] == [s[i]] + s[i + 1..k]
  {
  }

  lemma StatementIsSpelled(s: seq<Symbol>, i: nat, nested: bool, words: seq<string>, rest: Parsed)
    requires i < |s| && s[i].End? && words != [] && IsSpelling(s, i + 1, nested, [], rest)
    ensures IsSpelling(s, i, nested, words, Parsed([Statement(words)] + rest.tree, rest.next))
  {
    var d := Statement(words);
    SpellOne(d);
    SpellConcat([d], rest.tree);
    Unworded(s, i + 1, nested, rest);
    SliceSplit(s, i, i + 1, rest.next);
    JoinStatement(Words(words), Spell(rest.tree), Closing(nested));
  }

  lemma BlockIsSpelled(s: seq<Symbol>, i: nat, nested: bool, words: seq<string>, inner: Parsed, rest: Parsed)
    requires i < |s| && s[i].Open? && words != []
    requires IsSpelling(s, i + 1, true, [], inner) && IsSpelling(s, inner.next, nested, [], rest)
    ensures IsSpelling(s, i, nested, words, Parsed([Block(words, inner.tree)] + rest.tree, rest.next))
  {
    var d := Block(words, inner.tree);
    SpellOne(d);
    SpellConcat([d], rest.tree);
    Unworded(s, i + 1, true, inner);
    Unworded(s, inner.next, nested, rest);
    SliceSplit(s, i, inner.next, rest.next);
    JoinBlock(Words(words), Spell(inner.tree), Spell(rest.tree), Closing(nested));
  }

  lemma JoinStatement(words: seq<Symbol>, rest: seq<Symbol>, closing: seq<Symbol>)
    ensures words + ([End] + (rest + closing)) == ((words + [End]) + rest) + closing
  {
  }

  lemma JoinBlock(words: seq<Symbol>, children: seq<Symbol>, rest: seq<Symbol>, closing: seq<Symbol>)
    ensures words + ([Open] + (children + [Close]) + (rest + closing))
            == ((words + ([Open] + (children + [Close]))) + rest) + closing
  {
  }

  lemma WordIsSpelled(s: seq<Symbol>, i: nat, nested: bool, words: seq<string>, p: Parsed)
    requires i < |s| && s[i].Word? && IsSpelling(s, i + 1, nested, words + [s[i].text], p)
    ensures IsSpelling(s, i, nested, words, p)
  {
    assert s[i..p.next] == [s[i]] + s[i + 1..p.next];
    assert Words(words + [s[i].text]) == Words(words) + [s[i]];
    assert Words(words) + ([s[i]] + s[i + 1..p.next]) == (Words(words) + [s[i]]) + s[i + 1..p.next];
  }

  lemma EndIsSpelled(s: seq<Symbol>, i: nat, nested: bool)
    requires i <= |s| && (if nested then i < |s| && s[i].Close? else i == |s|)
    ensures IsSpelling(s, i, nested, [], Parsed([], if nested then i + 1 else i))
  {
    assert nested ==> s[i..i + 1] == [Close];
  }

  /** What is accepted spells the tree that is returned, to the last symbol. */
  lemma {:induction false} AcceptedIsSpelled(s: seq<Symbol>, i: nat, nested: bool, words: seq<string>)
    requires i <= |s| && Parse(s, i, nested, words).Ok?
    ensures IsSpelling(s, i, nested, words, Parse(s, i, nested, words).value)
    decreases |s| - i
  {
    if i == |s| {
      EndIsSpelled(s, i, nested);
    } else {
      match s[i]
      case Close => EndIsSpelled(s, i, nested);
      case Open =>
        AcceptedIsSpelled(s, i + 1, true, []);
        var inner := Parse(s, i + 1, true, []).value;
        AcceptedIsSpelled(s, inner.next, nested, []);
        BlockIsSpelled(s, i, nested, words, inner, Parse(s, inner.next, nested, []).value);
      case End =>
        AcceptedIsSpelled(s, i + 1, nested, []);
        StatementIsSpelled(s, i, nested, words, Parse(s, i + 1, nested, []).value);
      case Word(text) =>
        AcceptedIsSpelled(s, i + 1, nested, words + [text]);
        WordIsSpelled(s, i, nested, words, Parse(s, i, nested, words).value);
    }
  }

  /** The list holds exactly these symbols from i on, and perhaps more behind them. */
  ghost predicate StartsAt(s: seq<Symbol>, i: nat, part: seq<Symbol>) {
    i + |part| <= |s| && s[i..i + |part|] == part
  }

  lemma StartsSplit(s: seq<Symbol>, i: nat, x: seq<Symbol>, y: seq<Symbol>)
    requires StartsAt(s, i, x + y)
    ensures StartsAt(s, i, x) && StartsAt(s, i + |x|, y)
  {
    assert s[i..i + |x|] == (x + y)[..|x|];
    assert s[i + |x|..i + |x| + |y|] == (x + y)[|x|..];
  }

  lemma {:induction false} WordsAreRead(s: seq<Symbol>, i: nat, nested: bool, before: seq<string>, words: seq<string>)
    requires StartsAt(s, i, Words(words))
    ensures Parse(s, i, nested, before) == Parse(s, i + |words|, nested, before + words)
    decreases |words|
  {
    if words == [] {
      assert before + words == before;
    } else {
      assert s[i] == s[i..i + |words|][0] == Word(words[0]);
      assert Words(words)[1..] == Words(words[1..]);
      assert s[i + 1..i + |words|] == s[i..i + |words|][1..];
      WordsAreRead(s, i + 1, nested, before + [words[0]], words[1..]);
      assert before + [words[0]] + words[1..] == before + words;
    }
  }

  /** Position behind a tree that is spelled from i on, and behind the brace that closes it. */
  function Behind(i: nat, nested: bool, tree: seq<Directive>): nat {
    i + |Spell(tree)| + |Closing(nested)|
  }

  lemma BehindFirst(i: nat, nested: bool, tree: seq<Directive>)
    requires tree != []
    ensures Behind(i + |SpellDirective(tree[0])|, nested, tree[1..]) == Behind(i, nested, tree)
  {
  }

  lemma BehindBlock(i: nat, words: seq<string>, children: seq<Directive>)
    ensures Behind(i + |words| + 1, true, children) == i + |SpellDirective(Block(words, children))|
  {
  }

  lemma NothingIsAccepted(s: seq<Symbol>, i: nat, nested: bool)
    requires StartsAt(s, i, Spell([]) + Closing(nested)) && (!nested ==> i == |s|)
    ensures Parse(s, i, nested, []) == Ok(Parsed([], Behind(i, nested, [])))
  {
    assert Spell([]) + Closing(nested) == Closing(nested);
    if nested {
      FirstSymbol(s, i, [Close]);
    }
  }

  /** Every spelling of a tree is accepted, and gives the tree back. */
  lemma {:induction false} SpelledIsAccepted(s: seq<Symbol>, i: nat, nested: bool, tree: seq<Directive>)
    requires WellFormed(tree) && StartsAt(s, i, Spell(tree) + Closing(nested)) && (!nested ==> i + |Spell(tree)| == |s|)
    ensures Parse(s, i, nested, []) == Ok(Parsed(tree, Behind(i, nested, tree)))
    decreases tree, 1
  {
    if tree == [] {
      NothingIsAccepted(s, i, nested);
    } else {
      TreeSplits(s, i, nested, tree);
      DirectiveIsRead(s, i, nested, tree[0]);
      var next := i + |SpellDirective(tree[0])|;
      SpelledIsAccepted(s, next, nested, tree[1..]);
      PrependFirst(tree, Behind(next, nested, tree[1..]));
      BehindFirst(i, nested, tree);
    }
  }

  lemma PrependFirst(tree: seq<Directive>, next: nat)
    requires tree != []
    ensures Prepend([tree[0]], Ok(Parsed(tree[1..], next))) == Ok(Parsed(tree, next))
  {
    assert [tree[0]] + tree[1..] == tree;
  }

  lemma TreeSplits(s: seq<Symbol>, i: nat, nested: bool, tree: seq<Directive>)
    requires tree != [] && StartsAt(s, i, Spell(tree) + Closing(nested))
    ensures Spell(tree) == SpellDirective(tree[0]) + Spell(tree[1..])
    ensures StartsAt(s, i, SpellDirective(tree[0]))
    ensures StartsAt(s, i + |SpellDirective(tree[0])|, Spell(tree[1..]) + Closing(nested))
  {
    var x, y, z := SpellDirective(tree[0]), Spell(tree[1..]), Closing(nested);
    assert (x + y) + z == x + (y + z);
    StartsSplit(s, i, x, y + z);
  }

  /** The words of a directive have been read; its ending is next. */
  lemma EndingIsNext(s: seq<Symbol>, i: nat, nested: bool, d: Directive)
    requires StartsAt(s, i, SpellDirective(d))
    ensures StartsAt(s, i + |d.words|, Ending(d)) && |SpellDirective(d)| == |d.words| + |Ending(d)|
    ensures Parse(s, i, nested, []) == Parse(s, i + |d.words|, nested, d.words)
  {
    StartsSplit(s, i, Words(d.words), Ending(d));
    WordsAreRead(s, i, nested, [], d.words);
    assert [] + d.words == d.words;
  }

  lemma FirstSymbol(s: seq<Symbol>, i: nat, part: seq<Symbol>)
    requires StartsAt(s, i, part) && part != []
    ensures s[i] == part[0]
  {
    assert s[i] == s[i..i + |part|][0];
  }

  lemma StatementStep(s: seq<Symbol>, k: nat, nested: bool, words: seq<string>)
    requires k < |s| && s[k].End? && words != []
    ensures Parse(s, k, nested, words) == Prepend([Statement(words)], Parse(s, k + 1, nested, []))
  {
  }

  lemma BlockStep(s: seq<Symbol>, k: nat, nested: bool, words: seq<string>, inner: Parsed)
    requires k < |s| && s[k].Open? && words != [] && Parse(s, k + 1, true, []) == Ok(inner)
    ensures Parse(s, k, nested, words) == Prepend([Block(words, inner.tree)], Parse(s, inner.next, nested, []))
  {
  }

  lemma StatementIsRead(s: seq<Symbol>, i: nat, nested: bool, d: Directive)
    requires d.Statement? && d.words != [] && StartsAt(s, i, SpellDirective(d))
    ensures Parse(s, i, nested, []) == Prepend([d], Parse(s, i + |SpellDirective(d)|, nested, []))
  {
    EndingIsNext(s, i, nested, d);
    FirstSymbol(s, i + |d.words|, Ending(d));
    StatementStep(s, i + |d.words|, nested, d.words);
  }

  lemma BlockBody(s: seq<Symbol>, i: nat, d: Directive)
    requires d.Block? && StartsAt(s, i, SpellDirective(d))
    ensures StartsAt(s, i + |d.words| + 1, Spell(d.children) + Closing(true))
  {
    EndingIsNext(s, i, true, d);
    StartsSplit(s, i + |d.words|, [Open], Spell(d.children) + [Close]);
  }

  lemma BlockIsRead(s: seq<Symbol>, i: nat, nested: bool, d: Directive, end: nat)
    requires d.Block? && d.words != [] && StartsAt(s, i, SpellDirective(d)) && end == i + |SpellDirective(d)|
    requires i + |d.words| + 1 <= |s| && Parse(s, i + |d.words| + 1, true, []) == Ok(Parsed(d.children, end))
    ensures Parse(s, i, nested, []) == Prepend([d], Parse(s, end, nested, []))
  {
    EndingIsNext(s, i, nested, d);
    FirstSymbol(s, i + |d.words|, Ending(d));
    BlockStep(s, i + |d.words|, nested, d.words, Parsed(d.children, end));
  }

  /** A block whose body is accepted is read up to the brace that closes it. */
  lemma BlockWithBody(s: seq<Symbol>, i: nat, nested: bool, d: Directive)
    requires d.Block? && d.words != [] && StartsAt(s, i, SpellDirective(d)) && i + |d.words| + 1 <= |s|
    requires var body := i + |d.words| + 1;
             Parse(s, body, true, []) == Ok(Parsed(d.children, Behind(body, true, d.children)))
    ensures Parse(s, i, nested, []) == Prepend([d], Parse(s, i + |SpellDirective(d)|, nested, []))
  {
    BehindBlock(i, d.words, d.children);
    BlockIsRead(s, i, nested, d, i + |SpellDirective(d)|);
  }

  lemma {:induction false} DirectiveIsRead(s: seq<Symbol>, i: nat, nested: bool, d: Directive)
    requires d.words != [] && (d.Block? ==> WellFormed(d.children)) && StartsAt(s, i, SpellDirective(d))
    ensures Parse(s, i, nested, []) == Prepend([d], Parse(s, i + |SpellDirective(d)|, nested, []))
    decreases d, 0
  {
    if d.Statement? {
      StatementIsRead(s, i, nested, d);
    } else {
      BlockBody(s, i, d);
      SpelledIsAccepted(s, i + |d.words| + 1, true, d.children);
      BlockWithBody(s, i, nested, d);
    }
  }

  /** Accepted exactly when the symbols spell a well-formed tree, and that tree is the answer. */
  lemma AcceptsIffSpelled(s: seq<Symbol>, tree: seq<Directive>)
    ensures Parse(s, 0, false, []) == Ok(Parsed(tree, |s|)) <==> WellFormed(tree) && s == Spell(tree)
  {
    if Parse(s, 0, false, []) == Ok(Parsed(tree, |s|)) {
      AcceptedIsSpelled(s, 0, false, []);
      assert Words([]) + s[0..|s|] == s;
    }
    if WellFormed(tree) && s == Spell(tree) {
      assert s[0..|s|] == s;
      SpelledIsAccepted(s, 0, false, tree);
    }
  }

  // ----------------------------------------------------------------- parser

  class Parser {
    const tokens: seq<Token>
    var index: nat

    constructor (input: seq<Token>)
      ensures tokens == input && index == 0
    {
      tokens, index := input, 0;
    }

    /** Reads directives up to the end of the tokens or, inside a block, to its closing brace. */
    method Block(nested: bool) returns (r: Result<seq<Directive>, SyntaxError>)
      requires index <= |tokens|
      modifies this
      ensures old(index) <= index <= |tokens|
      ensures var parsed := Parse(Symbols(tokens), old(index), nested, []);
              match r
              case Ok(tree) => parsed == Ok(Parsed(tree, index))
              case Err(e) => parsed == Err(e)
      decreases |tokens| - index
    {
      ghost var s := Symbols(tokens);
      var result: seq<Directive> := [];
      var words: seq<string> := [];
      PrependNothing(Parse(s, index, nested, []));
      while index < |tokens|
        invariant old(index) <= index <= |tokens|
        invariant Parse(s, old(index), nested, []) == Prepend(result, Parse(s, index, nested, words))
        decreases |tokens| - index
      {
        var token := tokens[index];
        ghost var at := index;
        index := index + 1;
        if token.text == "}" && !token.quoted {
          if !nested || words != [] {
            return Err(UnexpectedClose);
          }
          assert result + [] == result;
          return Ok(result);
        }
        if token.text == "{" && !token.quoted {
          if words == [] {
            return Err(BlockWithoutDirective);
          }
          var children := Block(true);
          if children.Err? {
            return Err(children.error);
          }
          PrependTwice(result, [Directive.Block(words, children.value)], Parse(s, index, nested, []));
          result := result + [Directive.Block(words, children.value)];
          words := [];
        } else if token.text == ";" && !token.quoted {
          if words == [] {
            return Err(EmptyDirective);
          }
          PrependTwice(result, [Statement(words)], Parse(s, index, nested, []));
          result := result + [Statement(words)];
          words := [];
        } else {
          words := words + [token.text];
        }
      }
      if nested || words != [] {
        return Err(Unterminated);
      }
      assert result + [] == result;
      return Ok(result);
    }
  }

  /** Parses a token list: all of it is consumed, or it is refused. */
  method Directives(tokens: seq<Token>) returns (r: Result<seq<Directive>, SyntaxError>)
    ensures r.Ok? ==> WellFormed(r.value) && Symbols(tokens) == Spell(r.value)
    ensures r.Err? ==> forall tree :: WellFormed(tree) ==> Symbols(tokens) != Spell(tree)
  {
    var parser := new Parser(tokens);
    r := parser.Block(false);
    if r.Ok? {
      AcceptedIsSpelled(Symbols(tokens), 0, false, []);
      AcceptsIffSpelled(Symbols(tokens), r.value);
    } else {
      forall tree | WellFormed(tree)
        ensures Symbols(tokens) != Spell(tree)
      {
        AcceptsIffSpelled(Symbols(tokens), tree);
      }
    }
  }

  /** How a tree can be written: every word as a token, quoted where it would read as a mark. */
  function WriteWord(word: string): Token {
    Token(word, word == "{" || word == "}" || word == ";")
  }

  function WriteSymbol(symbol: Symbol): (token: Token)
    ensures SymbolOf(token) == symbol
  {
    match symbol
    case Open => Token("{", false)
    case Close => Token("}", false)
    case End => Token(";", false)
    case Word(text) => WriteWord(text)
  }

  function Write(tree: seq<Directive>): (tokens: seq<Token>)
    ensures |tokens| == |Spell(tree)|
  {
    var s := Spell(tree);
    seq(|s|, k requires 0 <= k < |s| => WriteSymbol(s[k]))
  }

  /** Writing a tree and parsing it gives the tree back; quoted braces and semicolons stay words. */
  lemma RoundTrip(tree: seq<Directive>)
    requires WellFormed(tree)
    ensures Parse(Symbols(Write(tree)), 0, false, []) == Ok(Parsed(tree, |Write(tree)|))
  {
    assert Symbols(Write(tree)) == Spell(tree);
    AcceptsIffSpelled(Symbols(Write(tree)), tree);
  }
}
