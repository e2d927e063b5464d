/**
 The SQL of a whole filter: what the parser writes for each tree of the grammar, what that
 text means when read by SQL's precedence, and how its placeholders are numbered and bound.
 */
module FilterCompile {
  import opened Text
  import opened LikePattern
  import opened Sql
  import opened FilterAtoms
  import F = FilterTrees

  type Filter = F.Filter

  /** How a condition is written from a given placeholder on, with its arguments. */
  type Writer = (Atom, nat) -> (Conj, seq<Value>)

  /** A conjunction of units, as text without outer parentheses, and its arguments in order. */
  function Compile(write: Writer, f: Filter, n: nat): (Conj, seq<Value>) {
    match f
    case Leaf(_, atom) => write(atom, n)
    case Group(g) => Compile(write, g, n)
    case Not(_, g) =>
      var (c, args) := Compile(write, g, n);
      (Negated(c), args)
    case BareNot(_, leaf) =>
      var (c, args) := Compile(write, leaf, n);
      (Negated(c), args)
    case And(l, _, r) =>
      var (a, left) := Compile(write, l, n);
      var (b, right) := Compile(write, r, n + |left|);
      (Both(a, b), left + right)
    case Or(l, _, r) =>
      var (a, left) := Compile(write, l, n);
      var (b, right) := Compile(write, r, n + |left|);
      (Either(a, b), left + right)
  }

  function Negated(c: Conj): Conj {
    var inner := One(c);
    Single(Neg(Paren(inner)))
  }

  function Both(a: Conj, b: Conj): Conj {
    var inner := One(Join(a, b));
    Single(Paren(inner))
  }

  function Either(a: Conj, b: Conj): Conj {
    var inner := OrThen(One(a), b);
    Single(Paren(inner))
  }

  // ----- the text of the connectives

  lemma NegatedRenders(c: Conj)
    ensures RenderConj(Negated(c)) == [Tok.Not, LParen] + RenderConj(c) + [RParen]
  {
    var inner := One(c);
    assert RenderDisj(inner) == RenderConj(c);
    assert RenderUnit(Paren(inner)) == [LParen] + RenderConj(c) + [RParen];
    assert RenderUnit(Neg(Paren(inner))) == [Tok.Not] + RenderUnit(Paren(inner));
  }

  lemma BothRenders(a: Conj, b: Conj)
    ensures RenderConj(Both(a, b)) == [LParen] + RenderConj(a) + [Tok.And] + RenderConj(b) + [RParen]
  {
    var inner := One(Join(a, b));
    JoinRenders(a, b);
    assert RenderDisj(inner) == RenderConj(a) + [Tok.And] + RenderConj(b);
    assert RenderUnit(Paren(inner)) == [LParen] + RenderDisj(inner) + [RParen];
  }

  lemma EitherRenders(a: Conj, b: Conj)
    ensures RenderConj(Either(a, b)) == [LParen] + RenderConj(a) + [Tok.Or] + RenderConj(b) + [RParen]
  {
    var inner := OrThen(One(a), b);
    assert RenderDisj(One(a)) == RenderConj(a);
    assert RenderDisj(inner) == RenderConj(a) + [Tok.Or] + RenderConj(b);
    assert RenderUnit(Paren(inner)) == [LParen] + RenderDisj(inner) + [RParen];
  }

  // ----- the meaning of the connectives

  lemma NegatedMeans(c: Conj, env: Env, elem: Elem)
    ensures EvalConj(Negated(c), env, elem) == Not3(EvalConj(c, env, elem))
  {
    var inner := One(c);
    assert EvalDisj(inner, env, elem) == EvalConj(c, env, elem);
    assert EvalUnit(Paren(inner), env, elem) == EvalDisj(inner, env, elem);
    assert EvalUnit(Neg(Paren(inner)), env, elem) == Not3(EvalUnit(Paren(inner), env, elem));
  }

  lemma BothMeans(a: Conj, b: Conj, env: Env, elem: Elem)
    ensures EvalConj(Both(a, b), env, elem) == And3(EvalConj(a, env, elem), EvalConj(b, env, elem))
  {
    var inner := One(Join(a, b));
    JoinMeans(a, b, env, elem);
    assert EvalDisj(inner, env, elem) == EvalConj(Join(a, b), env, elem);
    assert EvalUnit(Paren(inner), env, elem) == EvalDisj(inner, env, elem);
  }

  lemma EitherMeans(a: Conj, b: Conj, env: Env, elem: Elem)
    ensures EvalConj(Either(a, b), env, elem) == Or3(EvalConj(a, env, elem), EvalConj(b, env, elem))
  {
    var inner := OrThen(One(a), b);
    assert EvalDisj(One(a), env, elem) == EvalConj(a, env, elem);
    assert EvalUnit(Paren(inner), env, elem) == EvalDisj(inner, env, elem);
  }

  // ----- what a filter means

  /** The three-valued combination of the conditions' values. */
  function Kleene(value: Atom -> Tri, f: Filter): Tri {
    match f
    case Leaf(_, atom) => value(atom)
    case Group(g) => Kleene(value, g)
    case Not(_, g) => Not3(Kleene(value, g))
    case BareNot(_, leaf) => Not3(Kleene(value, leaf))
    case And(l, _, r) => And3(Kleene(value, l), Kleene(value, r))
    case Or(l, _, r) => Or3(Kleene(value, l), Kleene(value, r))
  }

  /** The two-valued reading of section 3.4.2.2 of RFC 7644. */
  predicate Satisfies(holds: Atom -> bool, f: Filter) {
    match f
    case Leaf(_, atom) => holds(atom)
    case Group(g) => Satisfies(holds, g)
    case Not(_, g) => !Satisfies(holds, g)
    case BareNot(_, leaf) => !Satisfies(holds, leaf)
    case And(l, _, r) => Satisfies(holds, l) && Satisfies(holds, r)
    case Or(l, _, r) => Satisfies(holds, l) || Satisfies(holds, r)
  }

  /** The conditions satisfying p are written so that their SQL has the given values. */
  ghost predicate WritesMeaning(write: Writer, p: Atom -> bool, value: Atom -> Tri, env: Env) {
    forall atom, n: nat | p(atom) && Binds(env, n, write(atom, n).1) ::
      EvalConj(write(atom, n).0, env, NoElem()) == value(atom)
  }

  /** Then a whole filter's SQL evaluates to the three-valued combination of its conditions. */
  lemma {:induction false} CompiledMeans(write: Writer, p: Atom -> bool, value: Atom -> Tri, f: Filter, n: nat, env: Env)
    requires WritesMeaning(write, p, value, env) && F.All(p, f)
    requires Binds(env, n, Compile(write, f, n).1)
    ensures EvalConj(Compile(write, f, n).0, env, NoElem()) == Kleene(value, f)
  {
    match f
    case Leaf(_, atom) =>
    case Group(g) => CompiledMeans(write, p, value, g, n, env);
    case Not(_, g) =>
      CompiledMeans(write, p, value, g, n, env);
      NegatedMeans(Compile(write, g, n).0, env, NoElem());
    case BareNot(_, leaf) =>
      CompiledMeans(write, p, value, leaf, n, env);
      NegatedMeans(Compile(write, leaf, n).0, env, NoElem());
    case And(l, _, r) =>
      var (a, left) := Compile(write, l, n);
      var (b, right) := Compile(write, r, n + |left|);
      BindsSplit(env, n, left, right);
      CompiledMeans(write, p, value, l, n, env);
      CompiledMeans(write, p, value, r, n + |left|, env);
      BothMeans(a, b, env, NoElem());
    case Or(l, _, r) =>
      var (a, left) := Compile(write, l, n);
      var (b, right) := Compile(write, r, n + |left|);
      BindsSplit(env, n, left, right);
      CompiledMeans(write, p, value, l, n, env);
      CompiledMeans(write, p, value, r, n + |left|, env);
      EitherMeans(a, b, env, NoElem());
  }

  lemma BindsSplit(env: Env, n: nat, a: seq<Value>, b: seq<Value>)
    requires Binds(env, n, a + b)
    ensures Binds(env, n, a) && Binds(env, n + |a|, b)
  {
    forall k | 0 <= k < |a| ensures env.bind(n + k) == a[k] {
      assert (a + b)[k] == a[k];
    }
    forall k | 0 <= k < |b| ensures env.bind(n + |a| + k) == b[k] {
      assert (a + b)[|a| + k] == b[k];
    }
  }

  /** Read left to right, the placeholders of c are n, n + 1, and so on, count of them. */
  predicate Numbered(c: Conj, n: nat, count: nat) {
    ParamsOf(RenderConj(c)) == From(n, count)
  }

  /** The conditions satisfying p are written with as many placeholders as arguments. */
  ghost predicate WritesNumbered(write: Writer, p: Atom -> bool) {
    forall atom, n: nat | p(atom) :: Numbered(write(atom, n).0, n, |write(atom, n).1|)
  }

  /** Then so is a whole filter. */
  lemma {:induction false} CompiledParams(write: Writer, p: Atom -> bool, f: Filter, n: nat)
    requires WritesNumbered(write, p) && F.All(p, f)
    ensures Numbered(Compile(write, f, n).0, n, |Compile(write, f, n).1|)
  {
    match f
    case Leaf(_, atom) =>
    case Group(g) => CompiledParams(write, p, g, n);
    case Not(_, g) =>
      CompiledParams(write, p, g, n);
      NegatedParams(Compile(write, g, n).0);
    case BareNot(_, leaf) =>
      CompiledParams(write, p, leaf, n);
      NegatedParams(Compile(write, leaf, n).0);
    case And(l, _, r) =>
      var (a, left) := Compile(write, l, n);
      var (b, right) := Compile(write, r, n + |left|);
      CompiledParams(write, p, l, n);
      CompiledParams(write, p, r, n + |left|);
      BothParams(a, b, n, |left|, |right|);
    case Or(l, _, r) =>
      var (a, left) := Compile(write, l, n);
      var (b, right) := Compile(write, r, n + |left|);
      CompiledParams(write, p, l, n);
      CompiledParams(write, p, r, n + |left|);
      EitherParams(a, b, n, |left|, |right|);
  }

  lemma NegatedParams(c: Conj)
    ensures ParamsOf(RenderConj(Negated(c))) == ParamsOf(RenderConj(c))
  {
    NegatedRenders(c);
    var toks := RenderConj(c);
    assert [Tok.Not, LParen] + toks + [RParen] == [Tok.Not] + ([LParen] + toks + [RParen]);
    Bare(Tok.Not);
    ParamsConcat([Tok.Not], [LParen] + toks + [RParen]);
    Enclosed(toks);
  }

  lemma BothParams(a: Conj, b: Conj, n: nat, left: nat, right: nat)
    requires Numbered(a, n, left) && Numbered(b, n + left, right)
    ensures Numbered(Both(a, b), n, left + right)
  {
    BothRenders(a, b);
    BetweenParens(RenderConj(a), Tok.And, RenderConj(b));
  }

  lemma EitherParams(a: Conj, b: Conj, n: nat, left: nat, right: nat)
    requires Numbered(a, n, left) && Numbered(b, n + left, right)
    ensures Numbered(Either(a, b), n, left + right)
  {
    EitherRenders(a, b);
    BetweenParens(RenderConj(a), Tok.Or, RenderConj(b));
  }

  lemma BetweenParens(l: seq<Tok>, t: Tok, r: seq<Tok>)
    requires !t.Word?
    ensures ParamsOf([LParen] + l + [t] + r + [RParen]) == ParamsOf(l) + ParamsOf(r)
  {
    assert [LParen] + l + [t] + r + [RParen] == [LParen] + (l + [t] + r) + [RParen];
    Joined(l, t, r);
    Enclosed(l + [t] + r);
  }

  // ----- three values against two

  /** A three-valued reading of conditions that answers, where it does, as the two-valued one; unknown is not true. */
  predicate Approximates(value: Tri, holds: bool, decided: bool) {
    value == if decided then Decide(holds) else U
  }

  ghost predicate Reads(value: Atom -> Tri, holds: Atom -> bool, decided: Atom -> bool) {
    forall atom :: Approximates(value(atom), holds(atom), decided(atom)) && (!decided(atom) ==> !holds(atom))
  }

  /** Every condition under an odd number of negations is decided. */
  predicate NegatedDecided(decided: Atom -> bool, f: Filter, positive: bool) {
    match f
    case Leaf(_, atom) => positive || decided(atom)
    case Group(g) => NegatedDecided(decided, g, positive)
    case Not(_, g) => NegatedDecided(decided, g, !positive)
    case BareNot(_, leaf) => NegatedDecided(decided, leaf, !positive)
    case And(l, _, r) => NegatedDecided(decided, l, positive) && NegatedDecided(decided, r, positive)
    case Or(l, _, r) => NegatedDecided(decided, l, positive) && NegatedDecided(decided, r, positive)
  }

  /** Then the combination is true exactly if the resource satisfies the filter. */
  lemma {:induction false} SelectsSatisfying(value: Atom -> Tri, holds: Atom -> bool, decided: Atom -> bool, f: Filter, positive: bool)
    requires Reads(value, holds, decided) && NegatedDecided(decided, f, positive)
    ensures positive ==> (Kleene(value, f) == T <==> Satisfies(holds, f))
    ensures !positive ==> (Kleene(value, f) == Tri.F <==> !Satisfies(holds, f))
  {
    match f
    case Leaf(_, atom) =>
      assert Approximates(value(atom), holds(atom), decided(atom));
    case Group(g) => SelectsSatisfying(value, holds, decided, g, positive);
    case Not(_, g) => SelectsSatisfying(value, holds, decided, g, !positive);
    case BareNot(_, leaf) => SelectsSatisfying(value, holds, decided, leaf, !positive);
    case And(l, _, r) =>
      SelectsSatisfying(value, holds, decided, l, positive);
      SelectsSatisfying(value, holds, decided, r, positive);
    case Or(l, _, r) =>
      SelectsSatisfying(value, holds, decided, l, positive);
      SelectsSatisfying(value, holds, decided, r, positive);
  }

  predicate NotFree(f: Filter) {
    match f
    case Leaf(_, _) => true
    case Group(g) => NotFree(g)
    case Not(_, _) => false
    case BareNot(_, _) => false
    case And(l, _, r) => NotFree(l) && NotFree(r)
    case Or(l, _, r) => NotFree(l) && NotFree(r)
  }

  lemma {:induction false} NotFreeIsDecided(decided: Atom -> bool, f: Filter)
    requires NotFree(f)
    ensures NegatedDecided(decided, f, true)
  {
    match f
    case Leaf(_, _) =>
    case Group(g) => NotFreeIsDecided(decided, g);
    case And(l, _, r) =>
      NotFreeIsDecided(decided, l);
      NotFreeIsDecided(decided, r);
    case Or(l, _, r) =>
      NotFreeIsDecided(decided, l);
      NotFreeIsDecided(decided, r);
  }

  /** SQL never answers wrongly: where it is not unknown, it agrees with the two-valued reading. */
  lemma {:induction false} KnownIsRight(value: Atom -> Tri, holds: Atom -> bool, decided: Atom -> bool, f: Filter)
    requires Reads(value, holds, decided)
    ensures Kleene(value, f) == U || Kleene(value, f) == Decide(Satisfies(holds, f))
  {
    match f
    case Leaf(_, atom) =>
      assert Approximates(value(atom), holds(atom), decided(atom));
    case Group(g) => KnownIsRight(value, holds, decided, g);
    case Not(_, g) => KnownIsRight(value, holds, decided, g);
    case BareNot(_, leaf) => KnownIsRight(value, holds, decided, leaf);
    case And(l, _, r) =>
      KnownIsRight(value, holds, decided, l);
      KnownIsRight(value, holds, decided, r);
    case Or(l, _, r) =>
      KnownIsRight(value, holds, decided, l);
      KnownIsRight(value, holds, decided, r);
  }

  // ----- the query

  function WorkspaceTest(): Pred {
    Compare(Equal, Column("workspace_id"), false, 1)
  }

  /** The repository's condition: the workspace first, then the filter's text as it is. */
  function WhereText(filter: seq<Tok>): seq<Tok> {
    [Word(WorkspaceTest()), Tok.And] + filter
  }

  /** Placeholder j is bound to the j-th query argument, counting from one. */
  function QueryEnv(row: Row, db: Database, args: seq<Value>): Env {
    Env(row, (j: nat) => if 1 <= j <= |args| then args[j - 1] else Str(""), db)
  }

  /**
   Read by SQL's precedence the whole text is one conjunction, its placeholders are numbered
   from one with an argument for each, and it selects the rows of the workspace for which the
   filter's three-valued combination is true.
   */
  lemma QuerySelects(write: Writer, p: Atom -> bool, value: Atom -> Tri, f: Filter, workspace: Value, row: Row, db: Database)
    requires WritesNumbered(write, p) && F.All(p, f)
    requires WritesMeaning(write, p, value, QueryEnv(row, db, [workspace] + Compile(write, f, 2).1))
    ensures var args := [workspace] + Compile(write, f, 2).1;
            var text := WhereText(RenderConj(Compile(write, f, 2).0));
            && ParamsOf(text) == From(1, |args|)
            && ReadDisj(text).Some? && ReadDisj(text).value.1 == []
            && (EvalDisj(ReadDisj(text).value.0, QueryEnv(row, db, args), NoElem()) == T
                <==> row.columns("workspace_id") == Some(workspace) && Kleene(value, f) == T)
  {
    var (c, filterArgs) := Compile(write, f, 2);
    var env := QueryEnv(row, db, [workspace] + filterArgs);
    CompiledParams(write, p, f, 2);
    QueryText(c, |filterArgs|);
    forall k | 0 <= k < |filterArgs| ensures env.bind(2 + k) == filterArgs[k] {
      assert ([workspace] + filterArgs)[k + 1] == filterArgs[k];
    }
    CompiledMeans(write, p, value, f, 2, env);
    QueryMeans(c, env, workspace);
  }

  lemma QueryText(c: Conj, count: nat)
    requires Numbered(c, 2, count)
    ensures ParamsOf(WhereText(RenderConj(c))) == From(1, 1 + count)
    ensures ReadDisj(WhereText(RenderConj(c))) == Some((One(Join(Of(WorkspaceTest()), c)), []))
  {
    var test := Of(WorkspaceTest());
    var d := One(Join(test, c));
    RenderOf(WorkspaceTest());
    JoinRenders(test, c);
    assert RenderDisj(d) == [Word(WorkspaceTest())] + [Tok.And] + RenderConj(c);
    assert WhereText(RenderConj(c)) == RenderDisj(d);
    TextReadsBack(d);
    Joined([Word(WorkspaceTest())], Tok.And, RenderConj(c));
    PredParams(WorkspaceTest());
    assert From(1, 1) == [1];
  }

  lemma QueryMeans(c: Conj, env: Env, workspace: Value)
    requires env.bind(1) == workspace
    ensures EvalDisj(One(Join(Of(WorkspaceTest()), c)), env, NoElem()) == T
       <==> env.row.columns("workspace_id") == Some(workspace) && EvalConj(c, env, NoElem()) == T
  {
    var test := Of(WorkspaceTest());
    JoinMeans(test, c, env, NoElem());
    assert EvalDisj(One(Join(test, c)), env, NoElem()) == EvalConj(Join(test, c), env, NoElem());
  }
}
