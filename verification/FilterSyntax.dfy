/**
 The filter language: its tokens, the trees of its grammar, and reading tokens into trees
 as the parser does.
 */
module FilterSyntax {
  import opened Text
  import opened FilterAtoms

  datatype Token = Bare(text: string) | Quoted(text: string) | Open | Close

  function TextOf(t: Token): string {
    match t
    case Bare(text) => text
    case Quoted(text) => text
    case Open => "("
    case Close => ")"
  }

  datatype Keyword = KwAnd | KwOr | KwNot | KwPr | KwOp(op: Op) | KwNone

  /** A collection with its sub-attributes; foreign when the resource type does not have it. */
  datatype CollectionInfo = CollectionInfo(column: string, foreign: bool, field: string -> Option<(string, bool)>)

  /**
   How words are understood. Keywords are recognised whatever their case; open and close
   split a word at its first bracket; dot gives what follows a leading dot.
   */
  datatype Lexicon = Lexicon(
    keyword: string -> Keyword,
    open: string -> Option<(string, string)>,
    close: string -> Option<(string, string)>,
    dot: string -> Option<string>,
    attr: string -> Attr,
    collection: string -> Option<CollectionInfo>,
    values: Values)

  predicate IsKeyword(lex: Lexicon, t: Token, k: Keyword) {
    t.Bare? && lex.keyword(t.text) == k
  }

  /** What may come after a complete operand. */
  predicate Follows(lex: Lexicon, toks: seq<Token>) {
    toks == [] || toks[0] == Close || IsKeyword(lex, toks[0], KwAnd) || IsKeyword(lex, toks[0], KwOr)
  }

  /** A word starting with a dot is no connective; every attribute is placed in its own table. */
  ghost predicate Sensible(lex: Lexicon) {
    && (forall w :: lex.keyword(w) == KwAnd || lex.keyword(w) == KwOr ==> lex.dot(w).None?)
    && (forall w :: Placed(lex.attr(w)))
  }

  // ----- one condition

  /** The condition at the head of the tokens, and how many tokens it takes. */
  function ReadAtom(lex: Lexicon, toks: seq<Token>): (r: Option<(Atom, nat)>)
    ensures r.Some? ==> 0 < r.value.1 <= |toks| && toks[0].Bare?
    ensures r.Some? ==> Accepts(lex.values, r.value.0)
    ensures r.Some? && Sensible(lex) ==> PlacedAtom(r.value.0)
  {
    if toks == [] || !toks[0].Bare? then None
    else if lex.open(toks[0].text).Some? then ReadPath(lex, toks)
    else if |toks| < 2 || !toks[1].Bare? then None
    else
      var attr := lex.attr(toks[0].text);
      match lex.keyword(toks[1].text)
      case KwPr => if Accepts(lex.values, Has(attr)) then Some((Has(attr), 2)) else None
      case KwOp(op) =>
        if |toks| < 3 then None
        else
          var atom := Test(attr, op, TextOf(toks[2]));
          if Accepts(lex.values, atom) then Some((atom, 3)) else None
      case _ => None
  }

  datatype Inner = Inner(text: string, quoted: bool)

  function Add(inner: seq<Inner>, text: string): seq<Inner> {
    if text == "" then inner else inner + [Inner(text, false)]
  }

  function SubOf(lex: Lexicon, after: string): string {
    match lex.dot(after) case None => "" case Some(sub) => sub
  }

  /** The words between the brackets, the sub-attribute stuck to the closing one, the tokens taken. */
  function Gather(lex: Lexicon, toks: seq<Token>): (r: Option<(seq<Inner>, string, nat)>)
    requires toks != [] && toks[0].Bare? && lex.open(toks[0].text).Some?
    ensures r.Some? ==> 0 < r.value.2 <= |toks|
  {
    var start := lex.open(toks[0].text).value.1;
    match lex.close(start)
    case Some((before, after)) => Some((Add([], before), SubOf(lex, after), 1))
    case None => GatherMore(lex, toks, 1, Add([], start))
  }

  function GatherMore(lex: Lexicon, toks: seq<Token>, k: nat, inner: seq<Inner>): (r: Option<(seq<Inner>, string, nat)>)
    ensures r.Some? ==> k < r.value.2 <= |toks|
    decreases |toks| - k
  {
    if k >= |toks| then None
    else if toks[k].Quoted? then GatherMore(lex, toks, k + 1, inner + [Inner(toks[k].text, true)])
    else
      match lex.close(TextOf(toks[k]))
      case Some((before, after)) => Some((Add(inner, before), SubOf(lex, after), k + 1))
      case None => GatherMore(lex, toks, k + 1, inner + [Inner(TextOf(toks[k]), false)])
  }

  /** The brackets hold no connectives and no parentheses. */
  predicate SingleClause(lex: Lexicon, inner: seq<Inner>) {
    forall k | 0 <= k < |inner| && !inner[k].quoted ::
      && inner[k].text != "(" && inner[k].text != ")"
      && lex.keyword(inner[k].text) != KwAnd && lex.keyword(inner[k].text) != KwOr && lex.keyword(inner[k].text) != KwNot
  }

  function InnerClause(lex: Lexicon, info: CollectionInfo, inner: seq<Inner>): (c: Option<Clause>)
    ensures c.Some? ==> AcceptsClause(lex.values, c.value)
  {
    if inner == [] || |inner| > 3 || info.field(inner[0].text).None? then None
    else
      var (key, flag) := info.field(inner[0].text).value;
      if |inner| == 1 then Some(Clause(key, flag, None, ""))
      else
        match lex.keyword(inner[1].text)
        case KwPr => if |inner| == 2 then Some(Clause(key, flag, None, "")) else None
        case KwOp(op) =>
          if |inner| == 2 then None
          else
            var c := Clause(key, flag, Some(op), inner[2].text);
            if AcceptsClause(lex.values, c) then Some(c) else None
        case _ => None
  }

  /** The comparison after the brackets: its operator (None for presence or nothing), value and tokens. */
  function Outer(lex: Lexicon, toks: seq<Token>, k: nat): (r: Option<(Option<Op>, string, nat)>)
    requires k <= |toks|
    ensures r.Some? ==> k <= r.value.2 <= |toks|
  {
    if k == |toks| || !toks[k].Bare? then Some((None, "", k))
    else
      match lex.keyword(toks[k].text)
      case KwAnd => Some((None, "", k))
      case KwOr => Some((None, "", k))
      case KwNot => Some((None, "", k))
      case KwPr => Some((None, "", k + 1))
      case KwOp(op) => if k + 1 == |toks| then None else Some((Some(op), TextOf(toks[k + 1]), k + 2))
      case KwNone => None
  }

  /** A value path: without a sub-attribute, what is compared after the brackets is not used. */
  function ReadPath(lex: Lexicon, toks: seq<Token>): (r: Option<(Atom, nat)>)
    requires toks != [] && toks[0].Bare? && lex.open(toks[0].text).Some?
    ensures r.Some? ==> 0 < r.value.1 <= |toks|
    ensures r.Some? ==> r.value.0.Path? && Accepts(lex.values, r.value.0)
  {
    match lex.collection(lex.open(toks[0].text).value.0)
    case None => None
    case Some(info) =>
      match Gather(lex, toks)
      case None => None
      case Some((inner, stuck, k)) =>
        var apart := stuck == "" && k < |toks| && toks[k].Bare? && lex.dot(toks[k].text).Some?;
        var sub := if apart then lex.dot(toks[k].text).value else stuck;
        var k' := if apart then k + 1 else k;
        if !SingleClause(lex, inner) then None
        else
          match InnerClause(lex, info, inner)
          case None => None
          case Some(clause) =>
            match Outer(lex, toks, k')
            case None => None
            case Some((op, value, used)) =>
              if sub == "" then Some((Path(info.column, clause, None, info.foreign), used))
              else if info.field(sub).None? then None
              else
                var (key, flag) := info.field(sub).value;
                var c := Clause(key, flag, op, value);
                if AcceptsClause(lex.values, c) then Some((Path(info.column, clause, Some(c), info.foreign), used))
                else None
  }

  // ----- what ReadAtom looks at

  /** Reading depends only on the tokens it takes, when an operand may end there. */
  ghost predicate Agree(lex: Lexicon, a: seq<Token>, b: seq<Token>, used: nat) {
    used <= |a| && used <= |b| && a[..used] == b[..used] && Follows(lex, a[used..]) && Follows(lex, b[used..])
  }

  lemma AgreeAt(lex: Lexicon, a: seq<Token>, b: seq<Token>, used: nat, k: nat)
    requires Agree(lex, a, b, used) && k < used
    ensures a[k] == b[k]
  {
    assert a[..used][k] == b[..used][k];
  }

  lemma {:induction false} GatherMoreIsLocal(lex: Lexicon, a: seq<Token>, b: seq<Token>, k: nat, inner: seq<Inner>, used: nat)
    requires Agree(lex, a, b, used)
    requires GatherMore(lex, a, k, inner).Some? && GatherMore(lex, a, k, inner).value.2 <= used
    ensures GatherMore(lex, b, k, inner) == GatherMore(lex, a, k, inner)
    decreases |a| - k
  {
    AgreeAt(lex, a, b, used, k);
    if a[k].Quoted? {
      GatherMoreIsLocal(lex, a, b, k + 1, inner + [Inner(a[k].text, true)], used);
    } else if lex.close(TextOf(a[k])).None? {
      GatherMoreIsLocal(lex, a, b, k + 1, inner + [Inner(TextOf(a[k]), false)], used);
    }
  }

  lemma OuterIsLocal(lex: Lexicon, a: seq<Token>, b: seq<Token>, k: nat, used: nat)
    requires Agree(lex, a, b, used) && k <= used
    requires Outer(lex, a, k).Some? && Outer(lex, a, k).value.2 == used
    ensures Outer(lex, b, k) == Outer(lex, a, k)
  {
    if k < used {
      AgreeAt(lex, a, b, used, k);
      if k + 1 < used {
        AgreeAt(lex, a, b, used, k + 1);
      }
    } else {
      assert a[used..] == [] || a[used..][0] == a[used];
      assert b[used..] == [] || b[used..][0] == b[used];
    }
  }

  lemma PathIsLocal(lex: Lexicon, a: seq<Token>, b: seq<Token>, used: nat)
    requires Sensible(lex) && a != [] && a[0].Bare? && lex.open(a[0].text).Some?
    requires ReadPath(lex, a).Some? && ReadPath(lex, a).value.1 == used && Agree(lex, a, b, used)
    ensures b != [] && b[0] == a[0] && ReadPath(lex, b) == ReadPath(lex, a)
  {
    AgreeAt(lex, a, b, used, 0);
    var (inner, stuck, k) := Gather(lex, a).value;
    var apart := stuck == "" && k < |a| && a[k].Bare? && lex.dot(a[k].text).Some?;
    var k' := if apart then k + 1 else k;
    assert k' <= used;
    var start := lex.open(a[0].text).value.1;
    if lex.close(start).None? {
      GatherMoreIsLocal(lex, a, b, 1, Add([], start), used);
    }
    assert Gather(lex, b) == Gather(lex, a);
    if k < used {
      AgreeAt(lex, a, b, used, k);
    } else {
      assert b[used..] == [] || b[used..][0] == b[used];
      assert !(k < |b| && b[k].Bare? && lex.dot(b[k].text).Some?);
    }
    OuterIsLocal(lex, a, b, k', used);
  }

  lemma AtomIsLocal(lex: Lexicon, a: seq<Token>, b: seq<Token>, used: nat)
    requires Sensible(lex)
    requires ReadAtom(lex, a).Some? && ReadAtom(lex, a).value.1 == used && Agree(lex, a, b, used)
    ensures ReadAtom(lex, b) == ReadAtom(lex, a)
  {
    AgreeAt(lex, a, b, used, 0);
    if lex.open(a[0].text).Some? {
      PathIsLocal(lex, a, b, used);
    } else {
      AgreeAt(lex, a, b, used, 1);
      if used == 3 {
        AgreeAt(lex, a, b, used, 2);
      }
    }
  }
}
