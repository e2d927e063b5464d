/**
 Which comparisons are accepted, how connectives bind, and what references to members are
 compared with.
 */
module FilterAccepts {
  import opened Text
  import opened LikePattern
  import opened Sql
  import opened FilterAtoms
  import opened FilterSyntax
  import F = FilterTrees

  /** Which operators each kind of attribute takes, and which values it can read. */
  lemma AcceptedExactlyIf(values: Values, attr: Attr, op: Op, value: string)
    ensures attr.Boolean? ==> (AcceptsTest(values, attr, op, value) <==> op in {Eq, Ne} && values.flag(value) != None)
    ensures attr.Time? ==> (AcceptsTest(values, attr, op, value) <==> op in {Eq, Ne, Gt, Ge, Lt, Le} && values.time(value) != None)
    ensures attr.Field? && attr.flag ==> (AcceptsTest(values, attr, op, value) <==> op == Eq && values.flag(value) != None)
    ensures attr.Field? && !attr.flag ==> (AcceptsTest(values, attr, op, value) <==> op in {Eq, Co, Sw, Ew})
    ensures attr.Foreign? && attr.flag && !attr.time ==> (AcceptsTest(values, attr, op, value) <==> op in {Eq, Ne} && values.flag(value) != None)
    ensures attr.Foreign? && !attr.flag && attr.time ==> (AcceptsTest(values, attr, op, value) <==> op in {Eq, Ne, Gt, Ge, Lt, Le} && values.time(value) != None)
    ensures attr.Foreign? && !attr.flag && !attr.time ==> AcceptsTest(values, attr, op, value)
    ensures attr.Plain? || attr.Reference? || attr.Collection? || attr.Member? || attr.Schemas? ==> AcceptsTest(values, attr, op, value)
    ensures attr.OneOf? ==> (AcceptsTest(values, attr, op, value) <==> attr.compared)
    ensures attr.Unknown? ==> !AcceptsTest(values, attr, op, value) && !Accepts(values, Has(attr))
    ensures !attr.Unknown? && !attr.OneOf? ==> Accepts(values, Has(attr))
  {
  }

  /** In brackets a boolean is compared with "eq" and "ne" only, and with a boolean; texts take every operator. */
  lemma AcceptedClauseExactlyIf(values: Values, c: Clause)
    ensures c.op == None || !c.flag ==> AcceptsClause(values, c)
    ensures c.op != None && c.flag ==> (AcceptsClause(values, c) <==> c.op in {Some(Eq), Some(Ne)} && values.flag(c.value) != None)
  {
  }

  // ----- members

  /** Some membership row of the resource satisfies the comparison with the text, whatever its case. */
  ghost predicate SomeMember(db: Database, relation: string, e: Expr, op: Op, text: string, row: Row) {
    exists k :: 0 <= k < |row.related(relation)| && ColumnMatches(db, op, true, Within(e, row.related(relation)[k]), text)
  }

  /** A reference is compared by the identifier in it, for "eq" and "ne" if there is one, and otherwise as it is written. */
  lemma MemberTestMeans(values: Values, db: Database, relation: string, e: Expr, isRef: bool, mayLack: bool, op: Op, value: string, row: Row)
    ensures isRef && (op == Eq || op == Ne) && values.id(value).Some? ==>
              (TestHolds(values, db, Member(relation, e, isRef, mayLack), op, value, row) <==> SomeMember(db, relation, e, op, values.id(value).value, row))
    ensures !isRef || (op != Eq && op != Ne) || values.id(value).None? ==>
              (TestHolds(values, db, Member(relation, e, isRef, mayLack), op, value, row) <==> SomeMember(db, relation, e, op, value, row))
  {
  }

  // ----- how connectives bind

  ghost predicate IsOperand(lex: Lexicon, f: F.Filter) {
    f.Leaf? && F.LeafOk(lex, f.toks, f.atom) && !IsKeyword(lex, f.toks[0], KwNot)
  }

  /** "and" binds tighter than "or", "not" tighter than both, and equals associate to the left. */
  lemma ConnectivesBind(lex: Lexicon, a: F.Filter, b: F.Filter, c: F.Filter, and: string, or: string, not: string)
    requires IsOperand(lex, a) && IsOperand(lex, b) && IsOperand(lex, c)
    requires lex.keyword(and) == KwAnd && lex.keyword(or) == KwOr && lex.keyword(not) == KwNot
    ensures F.ReadFilter(lex, a.toks + [Bare(or)] + b.toks + [Bare(and)] + c.toks) == Some(F.Or(a, or, F.And(b, and, c)))
    ensures F.ReadFilter(lex, a.toks + [Bare(and)] + b.toks + [Bare(or)] + c.toks) == Some(F.Or(F.And(a, and, b), or, c))
    ensures F.ReadFilter(lex, a.toks + [Bare(or)] + b.toks + [Bare(or)] + c.toks) == Some(F.Or(F.Or(a, or, b), or, c))
    ensures F.ReadFilter(lex, [Bare(not)] + a.toks + [Bare(and)] + b.toks) == Some(F.And(F.BareNot(not, a), and, b))
  {
    OrThenAnd(lex, a, b, c, and, or);
    AndThenOr(lex, a, b, c, and, or);
    OrThenOr(lex, a, b, c, or);
    NotThenAnd(lex, a, b, not, and);
  }

  lemma Operands(lex: Lexicon, a: F.Filter)
    requires IsOperand(lex, a)
    ensures F.Unary(lex, a) && F.Conjunction(lex, a) && F.Disjunction(lex, a) && F.Print(a) == a.toks
  {
    assert F.Conjunction(lex, a);
  }

  lemma AndIs(lex: Lexicon, l: F.Filter, word: string, r: F.Filter)
    requires F.Conjunction(lex, l) && lex.keyword(word) == KwAnd && F.Unary(lex, r)
    ensures F.Conjunction(lex, F.And(l, word, r)) && F.Disjunction(lex, F.And(l, word, r))
    ensures F.Print(F.And(l, word, r)) == F.Print(l) + [Bare(word)] + F.Print(r)
  {
    assert F.Conjunction(lex, F.And(l, word, r));
  }

  lemma OrIs(lex: Lexicon, l: F.Filter, word: string, r: F.Filter)
    requires F.Disjunction(lex, l) && lex.keyword(word) == KwOr && F.Conjunction(lex, r)
    ensures F.Disjunction(lex, F.Or(l, word, r))
    ensures F.Print(F.Or(l, word, r)) == F.Print(l) + [Bare(word)] + F.Print(r)
  {
  }

  lemma OrThenAnd(lex: Lexicon, a: F.Filter, b: F.Filter, c: F.Filter, and: string, or: string)
    requires IsOperand(lex, a) && IsOperand(lex, b) && IsOperand(lex, c) && lex.keyword(and) == KwAnd && lex.keyword(or) == KwOr
    ensures F.ReadFilter(lex, a.toks + [Bare(or)] + b.toks + [Bare(and)] + c.toks) == Some(F.Or(a, or, F.And(b, and, c)))
  {
    Operands(lex, a);
    Operands(lex, b);
    Operands(lex, c);
    AndIs(lex, b, and, c);
    OrIs(lex, a, or, F.And(b, and, c));
    F.PrintedIsRead(lex, F.Or(a, or, F.And(b, and, c)));
    JoinsAssociate(a.toks, Bare(or), b.toks, Bare(and), c.toks);
  }

  lemma AndThenOr(lex: Lexicon, a: F.Filter, b: F.Filter, c: F.Filter, and: string, or: string)
    requires IsOperand(lex, a) && IsOperand(lex, b) && IsOperand(lex, c) && lex.keyword(and) == KwAnd && lex.keyword(or) == KwOr
    ensures F.ReadFilter(lex, a.toks + [Bare(and)] + b.toks + [Bare(or)] + c.toks) == Some(F.Or(F.And(a, and, b), or, c))
  {
    Operands(lex, a);
    Operands(lex, b);
    Operands(lex, c);
    AndIs(lex, a, and, b);
    OrIs(lex, F.And(a, and, b), or, c);
    F.PrintedIsRead(lex, F.Or(F.And(a, and, b), or, c));
  }

  lemma OrThenOr(lex: Lexicon, a: F.Filter, b: F.Filter, c: F.Filter, or: string)
    requires IsOperand(lex, a) && IsOperand(lex, b) && IsOperand(lex, c) && lex.keyword(or) == KwOr
    ensures F.ReadFilter(lex, a.toks + [Bare(or)] + b.toks + [Bare(or)] + c.toks) == Some(F.Or(F.Or(a, or, b), or, c))
  {
    Operands(lex, a);
    Operands(lex, b);
    Operands(lex, c);
    OrIs(lex, a, or, b);
    OrIs(lex, F.Or(a, or, b), or, c);
    F.PrintedIsRead(lex, F.Or(F.Or(a, or, b), or, c));
  }

  lemma NotThenAnd(lex: Lexicon, a: F.Filter, b: F.Filter, not: string, and: string)
    requires IsOperand(lex, a) && IsOperand(lex, b) && lex.keyword(not) == KwNot && lex.keyword(and) == KwAnd
    ensures F.ReadFilter(lex, [Bare(not)] + a.toks + [Bare(and)] + b.toks) == Some(F.And(F.BareNot(not, a), and, b))
  {
    Operands(lex, a);
    Operands(lex, b);
    assert F.Conjunction(lex, F.BareNot(not, a));
    AndIs(lex, F.BareNot(not, a), and, b);
    F.PrintedIsRead(lex, F.And(F.BareNot(not, a), and, b));
  }

  lemma JoinsAssociate(a: seq<Token>, x: Token, b: seq<Token>, y: Token, c: seq<Token>)
    ensures a + [x] + (b + [y] + c) == a + [x] + b + [y] + c
  {
  }
}
