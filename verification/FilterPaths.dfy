/**
 Value paths: a collection, a clause in brackets on its elements, and what may be compared after
 it. Which words between the brackets the parser takes, and that it takes no connectives there.
 */
module FilterPaths {
  import opened Text
  import opened FilterAtoms
  import opened FilterSyntax
  import opened FilterTrees

  // ----- the tokens of a bracket

  /** The first token opens the bracket, and only the last one closes it. */
  predicate IsBracket(lex: Lexicon, toks: seq<Token>) {
    && toks != [] && toks[0].Bare? && lex.open(toks[0].text).Some?
    && var start, last := lex.open(toks[0].text).value.1, toks[|toks| - 1];
       if |toks| == 1 then lex.close(start).Some?
       else
         && lex.close(start).None? && !last.Quoted? && lex.close(TextOf(last)).Some?
         && forall k | 1 <= k < |toks| - 1 :: toks[k].Quoted? || lex.close(TextOf(toks[k])).None?
  }

  /** The last word of the bracket, and what is stuck to its end. */
  function Closing(lex: Lexicon, toks: seq<Token>): (string, string)
    requires IsBracket(lex, toks)
  {
    if |toks| == 1 then lex.close(lex.open(toks[0].text).value.1).value else lex.close(TextOf(toks[|toks| - 1])).value
  }

  function WordsIn(toks: seq<Token>): seq<Inner> {
    seq(|toks|, k requires 0 <= k < |toks| => Inner(TextOf(toks[k]), toks[k].Quoted?))
  }

  /** The words between the brackets. */
  function BracketWords(lex: Lexicon, toks: seq<Token>): seq<Inner>
    requires IsBracket(lex, toks)
  {
    if |toks| == 1 then Add([], Closing(lex, toks).0)
    else Add(Add([], lex.open(toks[0].text).value.1) + WordsIn(toks[1..|toks| - 1]), Closing(lex, toks).0)
  }

  lemma {:induction false} MiddleIsGathered(lex: Lexicon, toks: seq<Token>, rest: seq<Token>, k: nat, first: seq<Inner>)
    requires IsBracket(lex, toks) && 1 <= k < |toks|
    ensures GatherMore(lex, toks + rest, k, first + WordsIn(toks[1..k]))
         == Some((Add(first + WordsIn(toks[1..|toks| - 1]), Closing(lex, toks).0), SubOf(lex, Closing(lex, toks).1), |toks|))
    decreases |toks| - k
  {
    assert (toks + rest)[k] == toks[k];
    if k < |toks| - 1 {
      MiddleIsGathered(lex, toks, rest, k + 1, first);
      assert toks[1..k + 1] == toks[1..k] + [toks[k]];
      assert first + WordsIn(toks[1..k + 1]) == first + WordsIn(toks[1..k]) + [Inner(TextOf(toks[k]), toks[k].Quoted?)];
    }
  }

  lemma BracketIsGathered(lex: Lexicon, toks: seq<Token>, rest: seq<Token>)
    requires IsBracket(lex, toks)
    ensures (toks + rest)[0] == toks[0]
    ensures Gather(lex, toks + rest) == Some((BracketWords(lex, toks), SubOf(lex, Closing(lex, toks).1), |toks|))
  {
    assert (toks + rest)[0] == toks[0];
    if |toks| > 1 {
      var first := Add([], lex.open(toks[0].text).value.1);
      MiddleIsGathered(lex, toks, rest, 1, first);
      assert first + WordsIn(toks[1..1]) == first;
    }
  }

  // ----- one clause

  /** A sub-attribute of the collection: by itself, with "pr", or compared with a value. */
  predicate IsClause(lex: Lexicon, info: CollectionInfo, words: seq<Inner>) {
    && 1 <= |words| <= 3 && SingleClause(lex, words) && info.field(words[0].text).Some?
    && (|words| == 2 ==> lex.keyword(words[1].text) == KwPr)
    && (|words| == 3 ==> lex.keyword(words[1].text).KwOp?)
    && AcceptsClause(lex.values, ClauseOf(lex, info, words))
  }

  function ClauseOf(lex: Lexicon, info: CollectionInfo, words: seq<Inner>): Clause
    requires words != [] && info.field(words[0].text).Some?
    requires |words| == 3 ==> lex.keyword(words[1].text).KwOp?
  {
    var (key, flag) := info.field(words[0].text).value;
    if |words| == 3 then Clause(key, flag, Some(lex.keyword(words[1].text).op), words[2].text) else Clause(key, flag, None, "")
  }

  /** What may follow the bracket: nothing, "pr", or a comparison. */
  predicate IsOuter(lex: Lexicon, outer: seq<Token>) {
    outer == [] || (
      && outer[0].Bare? && lex.dot(outer[0].text).None?
      && ((|outer| == 1 && lex.keyword(outer[0].text) == KwPr) || (|outer| == 2 && lex.keyword(outer[0].text).KwOp?)))
  }

  /** The sub-attribute after the bracket, with what is compared there. */
  function SubClause(lex: Lexicon, info: CollectionInfo, sub: string, outer: seq<Token>): Clause
    requires IsOuter(lex, outer) && info.field(sub).Some?
  {
    var (key, flag) := info.field(sub).value;
    if |outer| == 2 then Clause(key, flag, Some(lex.keyword(outer[0].text).op), TextOf(outer[1])) else Clause(key, flag, None, "")
  }

  predicate IsSub(lex: Lexicon, info: CollectionInfo, sub: string, outer: seq<Token>)
    requires IsOuter(lex, outer)
  {
    sub == "" || (info.field(sub).Some? && AcceptsClause(lex.values, SubClause(lex, info, sub, outer)))
  }

  /** A bracket with one clause on a known collection, and after it nothing or a known sub-attribute. */
  predicate IsPath(lex: Lexicon, bracket: seq<Token>, outer: seq<Token>)
    requires IsBracket(lex, bracket) && IsOuter(lex, outer)
  {
    var info := lex.collection(lex.open(bracket[0].text).value.0);
    && info.Some? && IsClause(lex, info.value, BracketWords(lex, bracket))
    && IsSub(lex, info.value, SubOf(lex, Closing(lex, bracket).1), outer)
  }

  function PathOf(lex: Lexicon, bracket: seq<Token>, outer: seq<Token>): Atom
    requires IsBracket(lex, bracket) && IsOuter(lex, outer) && IsPath(lex, bracket, outer)
  {
    var info, sub := lex.collection(lex.open(bracket[0].text).value.0).value, SubOf(lex, Closing(lex, bracket).1);
    Path(info.column, ClauseOf(lex, info, BracketWords(lex, bracket)),
         if sub == "" then None else Some(SubClause(lex, info, sub, outer)), info.foreign)
  }

  lemma ClauseIsRead(lex: Lexicon, info: CollectionInfo, words: seq<Inner>)
    ensures IsClause(lex, info, words) <==> SingleClause(lex, words) && InnerClause(lex, info, words).Some?
    ensures IsClause(lex, info, words) ==> InnerClause(lex, info, words) == Some(ClauseOf(lex, info, words))
  {
  }

  lemma OuterIsRead(lex: Lexicon, bracket: seq<Token>, outer: seq<Token>)
    requires IsOuter(lex, outer)
    ensures Outer(lex, bracket + outer, |bracket|)
         == Some((if |outer| == 2 then Some(lex.keyword(outer[0].text).op) else None,
                  if |outer| == 2 then TextOf(outer[1]) else "", |bracket + outer|))
  {
    if outer != [] {
      assert (bracket + outer)[|bracket|] == outer[0];
      assert |outer| == 2 ==> (bracket + outer)[|bracket| + 1] == outer[1];
    }
  }

  lemma PathIsRead(lex: Lexicon, bracket: seq<Token>, outer: seq<Token>)
    requires IsBracket(lex, bracket) && IsOuter(lex, outer)
    ensures ReadAtom(lex, bracket + outer)
         == if IsPath(lex, bracket, outer) then Some((PathOf(lex, bracket, outer), |bracket + outer|)) else None
  {
    BracketIsGathered(lex, bracket, outer);
    OuterIsRead(lex, bracket, outer);
    var all, info := bracket + outer, lex.collection(lex.open(bracket[0].text).value.0);
    assert outer != [] ==> all[|bracket|] == outer[0];
    if info.Some? {
      ClauseIsRead(lex, info.value, BracketWords(lex, bracket));
    }
  }

  /**
   A bracket, and what may follow it, are a condition of the grammar exactly if the bracket holds
   one clause on a sub-attribute of a known collection and what follows is on a known one too.
   */
  lemma ValuePathExactlyIf(lex: Lexicon, bracket: seq<Token>, outer: seq<Token>, atom: Atom)
    requires Sensible(lex) && IsBracket(lex, bracket) && IsOuter(lex, outer)
    ensures LeafOk(lex, bracket + outer, atom) <==> IsPath(lex, bracket, outer) && atom == PathOf(lex, bracket, outer)
  {
    PathIsRead(lex, bracket, outer);
    LeafExactlyIfRead(lex, bracket + outer, atom);
  }

  // ----- connectives between the brackets

  /** A bracket with and, or, not or a parenthesis, which section 3.4.2.2 of RFC 7644 allows, makes every filter it opens invalid. */
  lemma CompoundIsRejected(lex: Lexicon, bracket: seq<Token>, rest: seq<Token>, k: nat)
    requires IsBracket(lex, bracket) && !IsKeyword(lex, bracket[0], KwNot)
    requires 1 <= k < |bracket| - 1 && bracket[k].Bare? && lex.keyword(bracket[k].text) in {KwAnd, KwOr, KwNot}
    ensures ReadAtom(lex, bracket + rest) == None && ReadFilter(lex, bracket + rest) == None
  {
    BracketIsGathered(lex, bracket, rest);
    var words, first := BracketWords(lex, bracket), Add([], lex.open(bracket[0].text).value.1);
    assert words[|first| + k - 1] == WordsIn(bracket[1..|bracket| - 1])[k - 1] == Inner(bracket[k].text, false);
    assert !SingleClause(lex, words);
    assert ReadPath(lex, bracket + rest) == None;
    assert ReadOperand(lex, bracket + rest) == None;
    assert ReadNot(lex, bracket + rest) == None;
    assert ReadAnd(lex, bracket + rest) == None;
    assert ReadOr(lex, bracket + rest) == None;
  }

  // ----- the usual forms

  /** A closing bracket with what is stuck to it, and no word before it. */
  predicate JustCloses(lex: Lexicon, t: Token) {
    t.Bare? && lex.close(t.text).Some? && lex.close(t.text).value.0 == ""
  }

  /** collection[sub op "value"] with nothing, a sub-attribute, or a comparison of one after it. */
  lemma ValuePathIsLeaf(lex: Lexicon, head: string, op: string, value: string, tail: string, outer: seq<Token>)
    requires Sensible(lex) && IsOuter(lex, outer) && JustCloses(lex, Bare(tail))
    requires lex.open(head).Some? && lex.collection(lex.open(head).value.0).Some?
    requires var (name, first) := lex.open(head).value;
             var info, sub := lex.collection(name).value, SubOf(lex, lex.close(tail).value.1);
             && first != "" && lex.close(first).None? && lex.close(op).None?
             && SingleClause(lex, [Inner(first, false)]) && lex.keyword(op).KwOp? && op != "(" && op != ")"
             && info.field(first).Some?
             && AcceptsClause(lex.values, Clause(info.field(first).value.0, info.field(first).value.1, Some(lex.keyword(op).op), value))
             && IsSub(lex, info, sub, outer)
    ensures var (name, first) := lex.open(head).value;
            var info, sub := lex.collection(name).value, SubOf(lex, lex.close(tail).value.1);
            var (key, flag) := info.field(first).value;
            LeafOk(lex, [Bare(head), Bare(op), Quoted(value), Bare(tail)] + outer,
                   Path(info.column, Clause(key, flag, Some(lex.keyword(op).op), value),
                        if sub == "" then None else Some(SubClause(lex, info, sub, outer)), info.foreign))
  {
    var bracket := [Bare(head), Bare(op), Quoted(value), Bare(tail)];
    var first := lex.open(head).value.1;
    assert WordsIn(bracket[1..3]) == [Inner(op, false), Inner(value, true)];
    assert BracketWords(lex, bracket) == [Inner(first, false), Inner(op, false), Inner(value, true)];
    assert SingleClause(lex, BracketWords(lex, bracket)) by {
      assert [Inner(first, false)][0] == Inner(first, false);
    }
    ValuePathExactlyIf(lex, bracket, outer, PathOf(lex, bracket, outer));
  }

  /** collection[sub pr], the bracket stuck to the operator. */
  lemma PresencePathIsLeaf(lex: Lexicon, head: string, tail: string)
    requires Sensible(lex) && lex.open(head).Some? && lex.collection(lex.open(head).value.0).Some?
    requires var (name, first) := lex.open(head).value;
             && first != "" && lex.close(first).None? && SingleClause(lex, [Inner(first, false)])
             && lex.collection(name).value.field(first).Some?
    requires lex.close(tail).Some? && SubOf(lex, lex.close(tail).value.1) == ""
    requires var pr := lex.close(tail).value.0; lex.keyword(pr) == KwPr && pr != "" && pr != "(" && pr != ")"
    ensures var (name, first) := lex.open(head).value;
            var info := lex.collection(name).value;
            LeafOk(lex, [Bare(head), Bare(tail)],
                   Path(info.column, Clause(info.field(first).value.0, info.field(first).value.1, None, ""), None, info.foreign))
  {
    var bracket := [Bare(head), Bare(tail)];
    var first, pr := lex.open(head).value.1, lex.close(tail).value.0;
    assert BracketWords(lex, bracket) == [Inner(first, false), Inner(pr, false)];
    assert SingleClause(lex, BracketWords(lex, bracket)) by {
      assert [Inner(first, false)][0] == Inner(first, false);
    }
    ValuePathExactlyIf(lex, bracket, [], PathOf(lex, bracket, []));
    assert bracket + [] == bracket;
  }
}
