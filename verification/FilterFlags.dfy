/**
 Filters on boolean sub-attributes, which are compared as the texts "true" and "false": what
 such a condition selects, down to the rows.
 */
module FilterFlags {
  import opened Text
  import opened LikePattern
  import opened Sql
  import opened FilterAtoms
  import opened FilterSyntax
  import opened FilterTrees
  import opened FilterCompile
  import opened FilterParser
  import opened FilterPaths
  import opened FilterWords

  /** How a boolean is stored in a collection. */
  function Literal(b: bool): string {
    match b case true => "true" case false => "false"
  }

  /** The SQL of a boolean clause is true exactly if the element holds the literal text, or for "ne" anything else or nothing. */
  lemma FlagTestMeans(values: Values, c: Clause, n: nat, env: Env, elem: Elem, b: bool)
    requires c.flag && (c.op == Some(Eq) || c.op == Some(Ne)) && values.flag(c.value) == Some(b)
    requires Binds(env, n, ElemArgs(values, c))
    ensures EvalUnit(ElemTest(c, n), env, elem) == T <==> if c.op == Some(Eq) then elem(c.key) == Some(Literal(b)) else elem(c.key) != Some(Literal(b))
  {
    assert env.bind(n + 0) == ElemArgs(values, c)[0];
    FilterAtoms.EitherMeans(Compare(Unequal, Item(c.key), false, n), IsNull(Item(c.key)), env, elem);
  }

  /** The argument bound is the literal given, in lower case. */
  lemma FlagArgument(values: Values, c: Clause)
    requires c.flag && c.op.Some? && AcceptsClause(values, c) && values.flag(c.value) == FlagOf(c.value)
    ensures ElemArgs(values, c) == [Str(ToLower(c.value))]
  {
    assert ToLower("true") == "true" && ToLower("false") == "false";
  }

  // ----- rows

  /** The query written for the filter selects the row. */
  ghost predicate Selected(lex: Lexicon, toks: seq<Token>, db: Database, workspace: Value, row: Row) {
    && ReadFilter(lex, toks).Some?
    && var r := Written(WriterOf(lex.values), ReadFilter(lex, toks).value, 2);
       var text, args := WhereText(r.sql), [workspace] + r.args;
       ReadDisj(text).Some? && EvalDisj(ReadDisj(text).value.0, QueryEnv(row, db, args), NoElem()) == T
  }

  /** A filter that is one condition selects the rows of the workspace for which the condition is true. */
  lemma ConditionSelects(lex: Lexicon, toks: seq<Token>, atom: Atom, db: Database, workspace: Value, row: Row)
    requires Sensible(lex) && KeepsSpecials(db.lower) && LeafOk(lex, toks, atom) && !IsKeyword(lex, toks[0], KwNot)
    ensures Accepts(lex.values, atom)
    ensures Selected(lex, toks, db, workspace, row) <==>
              row.columns("workspace_id") == Some(workspace) && Meaning(lex.values, db, atom, row) == T
  {
    var f := Leaf(toks, atom);
    LeafExactlyIfRead(lex, toks, atom);
    assert Unary(lex, f);
    assert Conjunction(lex, f);
    assert Disjunction(lex, f);
    PrintedIsRead(lex, f);
    AcceptedFilterSelects(lex, toks, db, workspace, row);
  }

  /** Some element of the stored collection has the literal under the key, or for "ne" one has not. */
  ghost predicate SomeFlag(row: Row, column: string, key: string, op: Op, b: bool) {
    && row.items(column).Some?
    && exists k :: 0 <= k < |row.items(column).value|
         && if op == Eq then row.items(column).value[k](key) == Some(Literal(b)) else row.items(column).value[k](key) != Some(Literal(b))
  }

  lemma FlagPathHolds(values: Values, db: Database, column: string, key: string, op: Op, value: string, b: bool, row: Row)
    requires (op == Eq || op == Ne) && values.flag(value) == Some(b)
    ensures Meaning(values, db, Path(column, Clause(key, true, Some(op), value), None, false), row) == T <==> SomeFlag(row, column, key, op, b)
    ensures op == Eq ==> (Meaning(values, db, Test(Field(column, key, true), op, value), row) == T <==> SomeFlag(row, column, key, op, b))
  {
    var c := Clause(key, true, Some(op), value);
    forall elem: Elem
      ensures ElemHolds(values, db, c, elem) <==> if op == Eq then elem(key) == Some(Literal(b)) else elem(key) != Some(Literal(b))
    {
    }
  }

  /** collection[sub op literal], the bracket stuck to the literal. */
  lemma FlagPathSelects(lex: Lexicon, head: string, op: string, tail: string, value: string, b: bool, db: Database, workspace: Value, row: Row)
    requires Sensible(lex) && KeepsSpecials(db.lower) && lex.keyword(head) != KwNot
    requires lex.open(head).Some? && lex.collection(lex.open(head).value.0).Some?
    requires lex.keyword(op) == KwOp(Eq) || lex.keyword(op) == KwOp(Ne)
    requires lex.close(op).None? && lex.close(tail) == Some((value, "")) && SubOf(lex, "") == "" && value != ""
    requires lex.values.flag(value) == Some(b)
    requires var (name, sub) := lex.open(head).value;
             && sub != "" && lex.close(sub).None? && SingleClause(lex, [Inner(sub, false), Inner(op, false), Inner(value, false)])
             && lex.collection(name).value.field(sub).Some? && lex.collection(name).value.field(sub).value.1
             && !lex.collection(name).value.foreign
    ensures var (name, sub) := lex.open(head).value;
            var info := lex.collection(name).value;
            Selected(lex, [Bare(head), Bare(op), Bare(tail)], db, workspace, row) <==>
              && row.columns("workspace_id") == Some(workspace)
              && SomeFlag(row, info.column, info.field(sub).value.0, lex.keyword(op).op, b)
  {
    var bracket := [Bare(head), Bare(op), Bare(tail)];
    var sub := lex.open(head).value.1;
    assert WordsIn(bracket[1..2]) == [Inner(op, false)];
    assert BracketWords(lex, bracket) == [Inner(sub, false), Inner(op, false), Inner(value, false)];
    assert bracket + [] == bracket;
    var atom := PathOf(lex, bracket, []);
    ValuePathExactlyIf(lex, bracket, [], atom);
    ConditionSelects(lex, bracket, atom, db, workspace, row);
    FlagPathHolds(lex.values, db, atom.column, atom.clause.key, lex.keyword(op).op, value, b, row);
  }

  /** collection.sub eq literal. */
  lemma FlagFieldSelects(lex: Lexicon, attr: string, op: string, value: Token, b: bool, db: Database, workspace: Value, row: Row)
    requires Sensible(lex) && KeepsSpecials(db.lower) && lex.keyword(attr) != KwNot && lex.open(attr).None?
    requires lex.keyword(op) == KwOp(Eq) && lex.attr(attr).Field? && lex.attr(attr).flag && lex.values.flag(TextOf(value)) == Some(b)
    ensures Selected(lex, [Bare(attr), Bare(op), value], db, workspace, row) <==>
              row.columns("workspace_id") == Some(workspace) && SomeFlag(row, lex.attr(attr).column, lex.attr(attr).key, Eq, b)
  {
    var atom := Test(lex.attr(attr), Eq, TextOf(value));
    ComparisonIsLeaf(lex, attr, op, value);
    ConditionSelects(lex, [Bare(attr), Bare(op), value], atom, db, workspace, row);
    FlagPathHolds(lex.values, db, lex.attr(attr).column, lex.attr(attr).key, Eq, TextOf(value), b, row);
  }

  // ----- with the words of the language

  /** After the closing bracket a dot introduces the sub-attribute; anything else is none. */
  lemma SubIsAfterDot(attr: string -> Attr, collection: string -> Option<CollectionInfo>, values: Values, after: string)
    ensures SubOf(Words(attr, collection, values), "." + after) == after
    ensures (after == "" || after[0] != '.') ==> SubOf(Words(attr, collection, values), after) == ""
  {
    assert ("." + after)[0] == '.' && ("." + after)[1..] == after;
  }

  /** Words as a user writes them in name[sub op value]. */
  predicate PlainWords(name: string, sub: string, value: string) {
    && '[' !in name && ']' !in sub && ']' !in value && TrimSpace(value) == value
    && sub != "" && sub != "(" && sub != ")" && KeywordOf(sub) == KwNone
  }

  lemma LiteralsAreLong(value: string)
    requires FlagOf(value).Some?
    ensures |value| >= 4 && KeywordOf(value) == KwNone
  {
    assert |ToLower(value)| == |value| && |ToLower("true")| == 4 && |ToLower("false")| == 5;
  }

  lemma OperatorsAreShort(op: string)
    requires KeywordOf(op) == KwOp(Eq) || KeywordOf(op) == KwOp(Ne)
    ensures ']' !in op && op != "(" && op != ")"
  {
    KeywordsAre(op);
    assert |ToLower(op)| == |op| == 2;
    assert ToLower(op)[0] == LowerChar(op[0]) && ToLower(op)[1] == LowerChar(op[1]);
    assert op == [op[0], op[1]];
  }

  lemma HeadIsNoKeyword(head: string)
    requires '[' in head
    ensures KeywordOf(head) != KwNot
  {
    KeywordsAre(head);
    var i :| 0 <= i < |head| && head[i] == '[';
    assert ToLower(head)[i] == '[';
  }

  lemma HeadOpens(name: string, sub: string)
    requires '[' !in name
    ensures Cut(name + ['['] + sub, '[') == Some((name, sub)) && KeywordOf(name + ['['] + sub) != KwNot
  {
    CutBefore(name, '[', sub);
    assert (name + ['['] + sub)[|name|] == '[';
    HeadIsNoKeyword(name + ['['] + sub);
  }

  lemma TailCloses(value: string)
    requires ']' !in value && TrimSpace(value) == value
    ensures CloseOf(value + [']']) == Some((value, ""))
  {
    CutBefore(value, ']', "");
    assert value + [']'] + "" == value + [']'];
  }

  lemma NoConnectives(lex: Lexicon, sub: string, op: string, value: string)
    requires lex.keyword == KeywordOf && KeywordOf(sub) == KwNone && KeywordOf(op).KwOp? && KeywordOf(value) == KwNone
    requires sub != "(" && sub != ")" && op != "(" && op != ")" && value != "(" && value != ")"
    ensures SingleClause(lex, [Inner(sub, false), Inner(op, false), Inner(value, false)])
  {
  }

  /** name[sub eq true], in whatever case, selects the rows of the workspace with an element that holds "true" under the key of sub. */
  lemma FlagFilterSelects(attr: string -> Attr, collection: string -> Option<CollectionInfo>, values: Values,
                          name: string, sub: string, op: string, value: string, b: bool, db: Database, workspace: Value, row: Row)
    requires (forall w :: Placed(attr(w))) && values.flag == FlagOf && KeepsSpecials(db.lower) && PlainWords(name, sub, value)
    requires KeywordOf(op) == KwOp(Eq) || KeywordOf(op) == KwOp(Ne)
    requires FlagOf(value) == Some(b)
    requires collection(name).Some? && !collection(name).value.foreign
    requires collection(name).value.field(sub).Some? && collection(name).value.field(sub).value.1
    ensures Selected(Words(attr, collection, values), [Bare(name + ['['] + sub), Bare(op), Bare(value + [']'])], db, workspace, row) <==>
              && row.columns("workspace_id") == Some(workspace)
              && SomeFlag(row, collection(name).value.column, collection(name).value.field(sub).value.0, KeywordOf(op).op, b)
  {
    var lex := Words(attr, collection, values);
    WordsAreSensible(attr, collection, values);
    LiteralsAreLong(value);
    OperatorsAreShort(op);
    HeadOpens(name, sub);
    TailCloses(value);
    NoCut(sub, ']');
    NoCut(op, ']');
    NoConnectives(lex, sub, op, value);
    FlagPathSelects(lex, name + ['['] + sub, op, value + [']'], value, b, db, workspace, row);
  }
}
