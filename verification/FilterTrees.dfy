/**
 The grammar of filters: trees, their token form, and the reading of tokens into trees with
 "not" over "and" over "or" and association to the left. Reading and printing are inverse.
 */
module FilterTrees {
  import opened Text
  import opened FilterAtoms
  import opened FilterSyntax

  /** Connectives keep the word they were written with; a leaf keeps its tokens. */
  datatype Filter =
    | Leaf(toks: seq<Token>, atom: Atom)
    | Group(f: Filter)
    | Not(word: string, f: Filter)          // not ( f )
    | BareNot(word: string, leaf: Filter)   // not a, without parentheses
    | And(l: Filter, word: string, r: Filter)
    | Or(l: Filter, word: string, r: Filter)

  function Print(f: Filter): seq<Token> {
    match f
    case Leaf(toks, _) => toks
    case Group(g) => [Open] + Print(g) + [Close]
    case Not(word, g) => [Bare(word), Open] + Print(g) + [Close]
    case BareNot(word, leaf) => [Bare(word)] + Print(leaf)
    case And(l, word, r) => Print(l) + [Bare(word)] + Print(r)
    case Or(l, word, r) => Print(l) + [Bare(word)] + Print(r)
  }

  /** Every condition of the tree satisfies p. */
  predicate All(p: Atom -> bool, f: Filter) {
    match f
    case Leaf(_, atom) => p(atom)
    case Group(g) => All(p, g)
    case Not(_, g) => All(p, g)
    case BareNot(_, leaf) => All(p, leaf)
    case And(l, _, r) => All(p, l) && All(p, r)
    case Or(l, _, r) => All(p, l) && All(p, r)
  }

  // ----- which trees are the grammar's

  /** The tokens of a leaf are read as its atom wherever an operand may end. */
  ghost predicate LeafOk(lex: Lexicon, toks: seq<Token>, atom: Atom) {
    && toks != [] && toks[0].Bare?
    && forall rest | Follows(lex, rest) :: ReadAtom(lex, toks + rest) == Some((atom, |toks|))
  }

  ghost predicate Unary(lex: Lexicon, f: Filter)
    decreases f, 0
  {
    match f
    case Leaf(toks, atom) => LeafOk(lex, toks, atom) && !IsKeyword(lex, toks[0], KwNot)
    case Group(g) => Disjunction(lex, g)
    case Not(word, g) => lex.keyword(word) == KwNot && Disjunction(lex, g)
    case BareNot(word, leaf) => lex.keyword(word) == KwNot && leaf.Leaf? && LeafOk(lex, leaf.toks, leaf.atom)
    case _ => false
  }

  ghost predicate Conjunction(lex: Lexicon, f: Filter)
    decreases f, 1
  {
    match f
    case And(l, word, r) => Conjunction(lex, l) && lex.keyword(word) == KwAnd && Unary(lex, r)
    case Or(_, _, _) => false
    case _ => Unary(lex, f)
  }

  ghost predicate Disjunction(lex: Lexicon, f: Filter)
    decreases f, 2
  {
    match f
    case Or(l, word, r) => Disjunction(lex, l) && lex.keyword(word) == KwOr && Conjunction(lex, r)
    case _ => Conjunction(lex, f)
  }

  // ----- reading

  type Reading = Option<(Filter, seq<Token>)>

  function ReadOr(lex: Lexicon, toks: seq<Token>): (r: Reading)
    ensures r.Some? ==> |r.value.1| < |toks|
    decreases |toks|, 5
  {
    match ReadAnd(lex, toks)
    case None => None
    case Some((f, rest)) => ReadOrTail(lex, f, rest)
  }

  function ReadOrTail(lex: Lexicon, left: Filter, toks: seq<Token>): (r: Reading)
    ensures r.Some? ==> |r.value.1| <= |toks|
    decreases |toks|, 4
  {
    if toks == [] || !IsKeyword(lex, toks[0], KwOr) then Some((left, toks))
    else
      match ReadAnd(lex, toks[1..])
      case None => None
      case Some((f, rest)) => ReadOrTail(lex, Or(left, toks[0].text, f), rest)
  }

  function ReadAnd(lex: Lexicon, toks: seq<Token>): (r: Reading)
    ensures r.Some? ==> |r.value.1| < |toks|
    decreases |toks|, 3
  {
    match ReadNot(lex, toks)
    case None => None
    case Some((f, rest)) => ReadAndTail(lex, f, rest)
  }

  function ReadAndTail(lex: Lexicon, left: Filter, toks: seq<Token>): (r: Reading)
    ensures r.Some? ==> |r.value.1| <= |toks|
    decreases |toks|, 2
  {
    if toks == [] || !IsKeyword(lex, toks[0], KwAnd) then Some((left, toks))
    else
      match ReadNot(lex, toks[1..])
      case None => None
      case Some((f, rest)) => ReadAndTail(lex, And(left, toks[0].text, f), rest)
  }

  function ReadNot(lex: Lexicon, toks: seq<Token>): (r: Reading)
    ensures r.Some? ==> |r.value.1| < |toks|
    decreases |toks|, 1
  {
    if toks != [] && IsKeyword(lex, toks[0], KwNot) then
      if |toks| > 1 && toks[1] == Open then
        match ReadOr(lex, toks[2..])
        case None => None
        case Some((f, rest)) => if rest != [] && rest[0] == Close then Some((Not(toks[0].text, f), rest[1..])) else None
      else
        match ReadOperand(lex, toks[1..])
        case None => None
        case Some((f, rest)) => Some((BareNot(toks[0].text, f), rest))
    else ReadOperand(lex, toks)
  }

  /** A parenthesised filter or a single condition. */
  function ReadOperand(lex: Lexicon, toks: seq<Token>): (r: Reading)
    ensures r.Some? ==> |r.value.1| < |toks|
    decreases |toks|, 0
  {
    if toks == [] then None
    else if toks[0] == Open then
      match ReadOr(lex, toks[1..])
      case None => None
      case Some((f, rest)) => if rest != [] && rest[0] == Close then Some((Group(f), rest[1..])) else None
    else
      match ReadAtom(lex, toks)
      case None => None
      case Some((atom, used)) => Some((Leaf(toks[..used], atom), toks[used..]))
  }

  /** A whole filter: nothing may be left over. */
  function ReadFilter(lex: Lexicon, toks: seq<Token>): Option<Filter> {
    match ReadOr(lex, toks)
    case None => None
    case Some((f, rest)) => if rest == [] then Some(f) else None
  }

  // ----- every tree of the grammar is read from its tokens

  lemma {:induction false} UnaryIsRead(lex: Lexicon, f: Filter, rest: seq<Token>)
    requires Unary(lex, f) && Follows(lex, rest)
    ensures ReadNot(lex, Print(f) + rest) == Some((f, rest))
    decreases f, 0
  {
    match f
    case Leaf(toks, atom) =>
      assert (toks + rest)[0] == toks[0];
    case Group(g) =>
      DisjunctionIsRead(lex, g, [Close] + rest);
      GroupIsRead(lex, g, rest);
    case Not(word, g) =>
      DisjunctionIsRead(lex, g, [Close] + rest);
      NotIsRead(lex, word, g, rest);
    case BareNot(word, leaf) =>
      BareNotIsRead(lex, word, leaf.toks, leaf.atom, rest);
  }

  lemma GroupIsRead(lex: Lexicon, g: Filter, rest: seq<Token>)
    requires ReadOr(lex, Print(g) + ([Close] + rest)) == ReadOrTail(lex, g, [Close] + rest)
    ensures ReadNot(lex, [Open] + Print(g) + [Close] + rest) == Some((Group(g), rest))
  {
    var toks, inside, after := [Open] + Print(g) + [Close] + rest, Print(g) + ([Close] + rest), [Close] + rest;
    assert toks[0] == Open && toks[1..] == inside;
    assert after[0] == Close && after[1..] == rest;
    assert ReadOrTail(lex, g, after) == Some((g, after));
    assert ReadOperand(lex, toks) == Some((Group(g), rest));
  }

  lemma NotIsRead(lex: Lexicon, word: string, g: Filter, rest: seq<Token>)
    requires lex.keyword(word) == KwNot
    requires ReadOr(lex, Print(g) + ([Close] + rest)) == ReadOrTail(lex, g, [Close] + rest)
    ensures ReadNot(lex, [Bare(word), Open] + Print(g) + [Close] + rest) == Some((Not(word, g), rest))
  {
    var toks, inside, after := [Bare(word), Open] + Print(g) + [Close] + rest, Print(g) + ([Close] + rest), [Close] + rest;
    assert toks[0] == Bare(word) && toks[1] == Open && toks[2..] == inside;
    assert after[0] == Close && after[1..] == rest;
    assert ReadOrTail(lex, g, after) == Some((g, after));
  }

  lemma BareNotIsRead(lex: Lexicon, word: string, leaf: seq<Token>, atom: Atom, rest: seq<Token>)
    requires lex.keyword(word) == KwNot && leaf != [] && leaf[0].Bare?
    requires ReadOperand(lex, leaf + rest) == Some((Leaf(leaf, atom), rest))
    ensures ReadNot(lex, [Bare(word)] + leaf + rest) == Some((BareNot(word, Leaf(leaf, atom)), rest))
  {
    var toks := [Bare(word)] + leaf + rest;
    assert toks[0] == Bare(word) && toks[1] == leaf[0] && toks[1..] == leaf + rest;
  }

  lemma {:induction false} ConjunctionIsRead(lex: Lexicon, f: Filter, rest: seq<Token>)
    requires Conjunction(lex, f) && Follows(lex, rest)
    ensures ReadAnd(lex, Print(f) + rest) == ReadAndTail(lex, f, rest)
    decreases f, 1
  {
    if f.And? {
      var after := [Bare(f.word)] + Print(f.r) + rest;
      ConjunctionIsRead(lex, f.l, after);
      UnaryIsRead(lex, f.r, rest);
      JoinSplits(Print(f.l), f.word, Print(f.r), rest);
    } else {
      UnaryIsRead(lex, f, rest);
    }
  }

  lemma JoinSplits(l: seq<Token>, word: string, r: seq<Token>, rest: seq<Token>)
    ensures var after := [Bare(word)] + r + rest;
            l + [Bare(word)] + r + rest == l + after && after[0] == Bare(word) && after[1..] == r + rest
  {
  }

  lemma {:induction false} DisjunctionIsRead(lex: Lexicon, f: Filter, rest: seq<Token>)
    requires Disjunction(lex, f) && Follows(lex, rest) && (rest == [] || !IsKeyword(lex, rest[0], KwAnd))
    ensures ReadOr(lex, Print(f) + rest) == ReadOrTail(lex, f, rest)
    decreases f, 2
  {
    if f.Or? {
      var after := [Bare(f.word)] + Print(f.r) + rest;
      DisjunctionIsRead(lex, f.l, after);
      ConjunctionIsRead(lex, f.r, rest);
      JoinSplits(Print(f.l), f.word, Print(f.r), rest);
    } else {
      ConjunctionIsRead(lex, f, rest);
    }
  }

  /** Every filter of the grammar is accepted, whole, and read as the tree it was printed from. */
  lemma PrintedIsRead(lex: Lexicon, f: Filter)
    requires Disjunction(lex, f)
    ensures ReadFilter(lex, Print(f)) == Some(f)
  {
    DisjunctionIsRead(lex, f, []);
    assert Print(f) + [] == Print(f);
  }

  // ----- whatever is read is a tree of the grammar, printed as it was

  lemma {:induction false} ReadOrIsSound(lex: Lexicon, toks: seq<Token>)
    requires Sensible(lex) && ReadOr(lex, toks).Some? && Follows(lex, ReadOr(lex, toks).value.1)
    ensures var (f, rest) := ReadOr(lex, toks).value; Disjunction(lex, f) && toks == Print(f) + rest
    decreases |toks|, 5
  {
    var (c, rest) := ReadAnd(lex, toks).value;
    ReadAndIsSound(lex, toks);
    ReadOrTailIsSound(lex, c, rest, toks);
  }

  lemma Longer(left: seq<Token>, toks: seq<Token>, right: seq<Token>, rest: seq<Token>)
    requires toks != [] && toks[1..] == right + rest
    ensures left + toks == left + [toks[0]] + right + rest
  {
    assert toks == [toks[0]] + toks[1..];
  }

  lemma {:induction false} ReadOrTailIsSound(lex: Lexicon, left: Filter, toks: seq<Token>, all: seq<Token>)
    requires Sensible(lex) && Disjunction(lex, left) && all == Print(left) + toks
    requires ReadOrTail(lex, left, toks).Some? && Follows(lex, ReadOrTail(lex, left, toks).value.1)
    ensures var (f, rest) := ReadOrTail(lex, left, toks).value; Disjunction(lex, f) && all == Print(f) + rest
    decreases |toks|, 4
  {
    if toks != [] && IsKeyword(lex, toks[0], KwOr) {
      var (c, rest) := ReadAnd(lex, toks[1..]).value;
      var longer := Or(left, toks[0].text, c);
      ReadAndIsSound(lex, toks[1..]);
      Longer(Print(left), toks, Print(c), rest);
      ReadOrTailIsSound(lex, longer, rest, all);
    }
  }

  lemma {:induction false} ReadAndIsSound(lex: Lexicon, toks: seq<Token>)
    requires Sensible(lex) && ReadAnd(lex, toks).Some? && Follows(lex, ReadAnd(lex, toks).value.1)
    ensures var (f, rest) := ReadAnd(lex, toks).value; Conjunction(lex, f) && toks == Print(f) + rest
    decreases |toks|, 3
  {
    var (u, rest) := ReadNot(lex, toks).value;
    ReadNotIsSound(lex, toks);
    ReadAndTailIsSound(lex, u, rest, toks);
  }

  lemma {:induction false} ReadAndTailIsSound(lex: Lexicon, left: Filter, toks: seq<Token>, all: seq<Token>)
    requires Sensible(lex) && Conjunction(lex, left) && all == Print(left) + toks
    requires ReadAndTail(lex, left, toks).Some? && Follows(lex, ReadAndTail(lex, left, toks).value.1)
    ensures var (f, rest) := ReadAndTail(lex, left, toks).value; Conjunction(lex, f) && all == Print(f) + rest
    decreases |toks|, 2
  {
    if toks != [] && IsKeyword(lex, toks[0], KwAnd) {
      var (u, rest) := ReadNot(lex, toks[1..]).value;
      var longer := And(left, toks[0].text, u);
      ReadNotIsSound(lex, toks[1..]);
      Longer(Print(left), toks, Print(u), rest);
      ReadAndTailIsSound(lex, longer, rest, all);
    }
  }

  lemma {:induction false} ReadNotIsSound(lex: Lexicon, toks: seq<Token>)
    requires Sensible(lex) && ReadNot(lex, toks).Some? && Follows(lex, ReadNot(lex, toks).value.1)
    ensures var (f, rest) := ReadNot(lex, toks).value; Unary(lex, f) && toks == Print(f) + rest
    decreases |toks|, 1
  {
    if IsKeyword(lex, toks[0], KwNot) {
      if |toks| > 1 && toks[1] == Open {
        ReadOrIsSound(lex, toks[2..]);
        var (f, rest) := ReadOr(lex, toks[2..]).value;
        NotSplits(toks, f, rest);
      } else {
        LeafIsSound(lex, toks[1..]);
        assert toks == [toks[0]] + toks[1..];
      }
    } else if toks[0] == Open {
      ReadOrIsSound(lex, toks[1..]);
    } else {
      LeafIsSound(lex, toks);
    }
  }

  lemma NotSplits(toks: seq<Token>, f: Filter, rest: seq<Token>)
    requires |toks| > 1 && toks[0].Bare? && toks[1] == Open && toks[2..] == Print(f) + rest && rest != [] && rest[0] == Close
    ensures toks == Print(Not(toks[0].text, f)) + rest[1..]
  {
    assert toks == [toks[0], toks[1]] + toks[2..];
    assert rest == [Close] + rest[1..];
  }

  lemma LeafIsSound(lex: Lexicon, toks: seq<Token>)
    requires Sensible(lex) && toks != [] && toks[0] != Open
    requires ReadOperand(lex, toks).Some? && Follows(lex, ReadOperand(lex, toks).value.1)
    ensures var (f, rest) := ReadOperand(lex, toks).value;
            f.Leaf? && LeafOk(lex, f.toks, f.atom) && f.toks[0] == toks[0] && toks == f.toks + rest
  {
    var (atom, used) := ReadAtom(lex, toks).value;
    var leaf := toks[..used];
    assert toks == leaf + toks[used..];
    forall rest | Follows(lex, rest)
      ensures ReadAtom(lex, leaf + rest) == Some((atom, |leaf|))
    {
      assert (leaf + rest)[..used] == leaf && (leaf + rest)[used..] == rest;
      AtomIsLocal(lex, toks, leaf + rest, used);
    }
  }

  /**
   The parser accepts exactly the token forms of the grammar's trees: what it accepts has
   one tree, and that tree's tokens are the input.
   */
  lemma AcceptedExactlyIfPrinted(lex: Lexicon, toks: seq<Token>, f: Filter)
    requires Sensible(lex)
    ensures ReadFilter(lex, toks) == Some(f) <==> Disjunction(lex, f) && Print(f) == toks
  {
    if ReadFilter(lex, toks) == Some(f) {
      ReadOrIsSound(lex, toks);
      assert Print(f) + [] == Print(f);
    }
    if Disjunction(lex, f) && Print(f) == toks {
      PrintedIsRead(lex, f);
    }
  }

  // ----- plain conditions are leaves

  /** The leaves are the conditions that are read whole. */
  lemma LeafExactlyIfRead(lex: Lexicon, toks: seq<Token>, atom: Atom)
    requires Sensible(lex)
    ensures LeafOk(lex, toks, atom) <==> ReadAtom(lex, toks) == Some((atom, |toks|))
  {
    assert toks + [] == toks && Follows(lex, []);
    if ReadAtom(lex, toks) == Some((atom, |toks|)) {
      forall rest | Follows(lex, rest)
        ensures ReadAtom(lex, toks + rest) == Some((atom, |toks|))
      {
        assert (toks + rest)[..|toks|] == toks[..|toks|] && (toks + rest)[|toks|..] == rest && toks[|toks|..] == [];
        AtomIsLocal(lex, toks, toks + rest, |toks|);
      }
    }
  }

  /** Comparisons "attr op value" and "attr pr" of accepted kinds are leaves. */
  lemma ComparisonIsLeaf(lex: Lexicon, attr: string, op: string, value: Token)
    requires lex.open(attr).None? && lex.keyword(op).KwOp?
    requires AcceptsTest(lex.values, lex.attr(attr), lex.keyword(op).op, TextOf(value))
    ensures LeafOk(lex, [Bare(attr), Bare(op), value], Test(lex.attr(attr), lex.keyword(op).op, TextOf(value)))
  {
    var toks := [Bare(attr), Bare(op), value];
    forall rest | Follows(lex, rest)
      ensures ReadAtom(lex, toks + rest) == Some((Test(lex.attr(attr), lex.keyword(op).op, TextOf(value)), 3))
    {
      assert (toks + rest)[0] == toks[0] && (toks + rest)[1] == toks[1] && (toks + rest)[2] == toks[2];
    }
  }

  lemma PresenceIsLeaf(lex: Lexicon, attr: string, op: string)
    requires lex.open(attr).None? && lex.keyword(op) == KwPr && Accepts(lex.values, Has(lex.attr(attr)))
    ensures LeafOk(lex, [Bare(attr), Bare(op)], Has(lex.attr(attr)))
  {
    var toks := [Bare(attr), Bare(op)];
    forall rest | Follows(lex, rest)
      ensures ReadAtom(lex, toks + rest) == Some((Has(lex.attr(attr)), 2))
    {
      assert (toks + rest)[0] == toks[0] && (toks + rest)[1] == toks[1];
    }
  }
}
