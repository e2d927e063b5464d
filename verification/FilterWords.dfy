/**
 How the parser understands words: operators and connectives whatever their case, brackets at
 their first occurrence, a leading dot before a sub-attribute.
 */
module FilterWords {
  import opened Text
  import opened FilterAtoms
  import opened FilterSyntax

  function KeywordOf(word: string): Keyword {
    var w := ToLower(word);
    if w == "and" then KwAnd
    else if w == "or" then KwOr
    else if w == "not" then KwNot
    else if w == "pr" then KwPr
    else if w == "eq" then KwOp(Eq)
    else if w == "ne" then KwOp(Ne)
    else if w == "co" then KwOp(Co)
    else if w == "sw" then KwOp(Sw)
    else if w == "ew" then KwOp(Ew)
    else if w == "gt" then KwOp(Gt)
    else if w == "ge" then KwOp(Ge)
    else if w == "lt" then KwOp(Lt)
    else if w == "le" then KwOp(Le)
    else KwNone
  }

  /** A word is a keyword exactly if it is that keyword whatever its case. */
  lemma KeywordsAre(w: string)
    ensures KeywordOf(w) == KwAnd <==> ToLower(w) == "and"
    ensures KeywordOf(w) == KwOr <==> ToLower(w) == "or"
    ensures KeywordOf(w) == KwNot <==> ToLower(w) == "not"
    ensures KeywordOf(w) == KwPr <==> ToLower(w) == "pr"
    ensures KeywordOf(w) == KwOp(Eq) <==> ToLower(w) == "eq"
    ensures KeywordOf(w) == KwOp(Ne) <==> ToLower(w) == "ne"
    ensures KeywordOf(w) == KwOp(Co) <==> ToLower(w) == "co"
    ensures KeywordOf(w) == KwOp(Sw) <==> ToLower(w) == "sw"
    ensures KeywordOf(w) == KwOp(Ew) <==> ToLower(w) == "ew"
    ensures KeywordOf(w) == KwOp(Gt) <==> ToLower(w) == "gt"
    ensures KeywordOf(w) == KwOp(Ge) <==> ToLower(w) == "ge"
    ensures KeywordOf(w) == KwOp(Lt) <==> ToLower(w) == "lt"
    ensures KeywordOf(w) == KwOp(Le) <==> ToLower(w) == "le"
  {
  }

  /** A boolean literal, whatever its case. */
  function FlagOf(word: string): Option<bool> {
    if EqualFold(word, "true") then Some(true) else if EqualFold(word, "false") then Some(false) else None
  }

  /** What is before and after the first occurrence of a character. */
  function Cut(word: string, at: char): Option<(string, string)> {
    if word == "" then None
    else if word[0] == at then Some(("", word[1..]))
    else
      match Cut(word[1..], at)
      case None => None
      case Some((before, after)) => Some(([word[0]] + before, after))
  }

  function CloseOf(word: string): Option<(string, string)> {
    match Cut(word, ']')
    case None => None
    case Some((before, after)) => Some((TrimSpace(before), after))
  }

  function DotOf(word: string): Option<string> {
    if word != "" && word[0] == '.' then Some(word[1..]) else None
  }

  /** The tables of attributes and collections, and the reading of values, stay parameters. */
  function Words(attr: string -> Attr, collection: string -> Option<CollectionInfo>, values: Values): Lexicon {
    Lexicon(KeywordOf, (word: string) => Cut(word, '['), CloseOf, DotOf, attr, collection, values)
  }

  lemma {:induction false} CutIsFirst(word: string, at: char)
    ensures match Cut(word, at)
            case None => at !in word
            case Some((before, after)) => word == before + [at] + after && at !in before
  {
    if word != "" {
      assert word == [word[0]] + word[1..];
      if word[0] != at {
        CutIsFirst(word[1..], at);
      }
    }
  }

  /** A word is cut where the character is, if it is nowhere before. */
  lemma {:induction false} CutBefore(before: string, at: char, after: string)
    requires at !in before
    ensures Cut(before + [at] + after, at) == Some((before, after))
  {
    var word := before + [at] + after;
    if before == "" {
      assert word[0] == at && word[1..] == after;
    } else {
      assert word[0] == before[0] && word[1..] == before[1..] + [at] + after;
      CutBefore(before[1..], at, after);
      assert [before[0]] + before[1..] == before;
    }
  }

  lemma {:induction false} NoCut(word: string, at: char)
    requires at !in word
    ensures Cut(word, at) == None
  {
    if word != "" {
      NoCut(word[1..], at);
    }
  }

  /** No connective starts with a dot, so the parser's reading of a condition is local. */
  lemma WordsAreSensible(attr: string -> Attr, collection: string -> Option<CollectionInfo>, values: Values)
    requires forall w :: Placed(attr(w))
    ensures Sensible(Words(attr, collection, values))
  {
    forall w | KeywordOf(w) == KwAnd || KeywordOf(w) == KwOr
      ensures DotOf(w).None?
    {
      assert ToLower(w)[0] == LowerChar(w[0]);
      assert LowerChar('.') == '.';
    }
  }
}
