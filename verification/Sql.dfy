/**
 The part of SQL that filters compile to: its text as tokens, the tree its grammar gives a
 text (NOT binds tighter than AND, AND tighter than OR), and its three-valued meaning.
 */
module Sql {
  import opened Text
  import opened LikePattern

  // ----- values and rows

  datatype Value = Str(s: string) | Flag(b: bool)

  /** One element of a JSON collection, or one membership row joined to the resource. */
  type Elem = string -> Option<string>

  datatype Source = Items(column: string) | Related(relation: string)

  /** A stored resource: its columns, its JSON collections (None is NULL), its membership rows. */
  datatype Row = Row(columns: string -> Option<Value>, items: string -> Option<seq<Elem>>, related: string -> seq<Elem>)

  /** The database's LOWER, per character, and the order of its text type. */
  datatype Database = Database(lower: char -> char, less: (string, string) -> bool)

  datatype Env = Env(row: Row, bind: nat -> Value, db: Database)

  // ----- terms and atomic conditions

  datatype Expr = Column(name: string) | Item(key: string) | Literal(text: string)

  datatype Rel = Equal | Unequal | Greater | GreaterEq | Less | LessEq

  datatype Pred =
    | True
    | False
    | IsNull(e: Expr)
    | NotNull(e: Expr)
    | NotBlank(e: Expr)
    | Compare(rel: Rel, e: Expr, fold: bool, param: nat)
    | Like(e: Expr, fold: bool, param: nat)
    | JsonNotNull(column: string)
    | JsonIsArray(column: string)
    | JsonNotEmpty(column: string)

  datatype Tri = T | F | U

  function Decide(b: bool): Tri {
    if b then T else F
  }

  function And3(a: Tri, b: Tri): Tri {
    if a == F || b == F then F else if a == T && b == T then T else U
  }

  function Or3(a: Tri, b: Tri): Tri {
    if a == T || b == T then T else if a == F && b == F then F else U
  }

  function Not3(a: Tri): Tri {
    match a case T => F case F => T case U => U
  }

  function Term(e: Expr, env: Env, elem: Elem): Option<Value> {
    match e
    case Column(name) => env.row.columns(name)
    case Item(key) => (match elem(key) case None => None case Some(s) => Some(Str(s)))
    case Literal(text) => Some(Str(text))
  }

  function FoldValue(db: Database, fold: bool, v: Value): Value {
    if fold && v.Str? then Str(MapChars(db.lower, v.s)) else v
  }

  predicate Related2(db: Database, rel: Rel, a: Value, b: Value) {
    match rel
    case Equal => a == b
    case Unequal => a != b
    case Greater => a.Str? && b.Str? && db.less(b.s, a.s)
    case GreaterEq => a == b || (a.Str? && b.Str? && db.less(b.s, a.s))
    case Less => a.Str? && b.Str? && db.less(a.s, b.s)
    case LessEq => a == b || (a.Str? && b.Str? && db.less(a.s, b.s))
  }

  /** A comparison with NULL is unknown; IS NULL and IS NOT NULL never are. */
  function EvalPred(p: Pred, env: Env, elem: Elem): Tri {
    match p
    case True => T
    case False => F
    case IsNull(e) => Decide(Term(e, env, elem).None?)
    case NotNull(e) => Decide(Term(e, env, elem).Some?)
    case NotBlank(e) => (match Term(e, env, elem) case None => U case Some(v) => Decide(v != Str("")))
    case Compare(rel, e, fold, param) => (
      match Term(e, env, elem)
      case None => U
      case Some(v) => Decide(Related2(env.db, rel, FoldValue(env.db, fold, v), FoldValue(env.db, fold, env.bind(param))))
    )
    case Like(e, fold, param) => (
      match Term(e, env, elem)
      case None => U
      case Some(v) =>
        var a, b := FoldValue(env.db, fold, v), FoldValue(env.db, fold, env.bind(param));
        Decide(a.Str? && b.Str? && Matches(b.s, a.s))
    )
    case JsonNotNull(column) => Decide(env.row.items(column).Some?)
    case JsonIsArray(column) => if env.row.items(column).None? then U else T
    case JsonNotEmpty(column) => if env.row.items(column).None? then U else Decide(env.row.items(column).value != [])
  }

  function Elements(row: Row, source: Source): seq<Elem> {
    match source
    case Items(column) => (match row.items(column) case None => [] case Some(es) => es)
    case Related(relation) => row.related(relation)
  }

  // ----- the grammar's tree

  datatype Disj = One(c: Conj) | OrThen(d: Disj, c: Conj)
  datatype Conj = Single(u: Unit) | AndThen(c: Conj, u: Unit)
  datatype Unit = Cond(p: Pred) | Paren(d: Disj) | Neg(u: Unit) | Exists(source: Source, d: Disj)

  ghost function EvalDisj(d: Disj, env: Env, elem: Elem): Tri {
    match d
    case One(c) => EvalConj(c, env, elem)
    case OrThen(d', c) => Or3(EvalDisj(d', env, elem), EvalConj(c, env, elem))
  }

  ghost function EvalConj(c: Conj, env: Env, elem: Elem): Tri {
    match c
    case Single(u) => EvalUnit(u, env, elem)
    case AndThen(c', u) => And3(EvalConj(c', env, elem), EvalUnit(u, env, elem))
  }

  ghost function EvalUnit(u: Unit, env: Env, elem: Elem): Tri {
    match u
    case Cond(p) => EvalPred(p, env, elem)
    case Paren(d) => EvalDisj(d, env, elem)
    case Neg(u') => Not3(EvalUnit(u', env, elem))
    case Exists(source, d) =>
      var es := Elements(env.row, source);
      Decide(exists k :: 0 <= k < |es| && EvalDisj(d, env, es[k]) == T)
  }

  // ----- text

  datatype Tok = LParen | RParen | And | Or | Not | Word(p: Pred) | ExistsWord(source: Source)

  function RenderDisj(d: Disj): seq<Tok> {
    match d
    case One(c) => RenderConj(c)
    case OrThen(d', c) => RenderDisj(d') + [Or] + RenderConj(c)
  }

  function RenderConj(c: Conj): seq<Tok> {
    match c
    case Single(u) => RenderUnit(u)
    case AndThen(c', u) => RenderConj(c') + [And] + RenderUnit(u)
  }

  function RenderUnit(u: Unit): seq<Tok> {
    match u
    case Cond(p) => [Word(p)]
    case Paren(d) => [LParen] + RenderDisj(d) + [RParen]
    case Neg(u') => [Not] + RenderUnit(u')
    case Exists(source, d) => [ExistsWord(source), LParen] + RenderDisj(d) + [RParen]
  }

  // ----- reading text back by SQL's precedence

  function ReadUnit(toks: seq<Tok>): (r: Option<(Unit, seq<Tok>)>)
    ensures r.Some? ==> |r.value.1| < |toks|
    decreases |toks|, 1
  {
    if toks == [] then None
    else
      match toks[0]
      case Word(p) => Some((Cond(p), toks[1..]))
      case Not => (match ReadUnit(toks[1..]) case None => None case Some((u, rest)) => Some((Neg(u), rest)))
      case LParen => (
        match ReadParen(toks)
        case None => None
        case Some((d, rest)) => Some((Paren(d), rest))
      )
      case ExistsWord(source) => (
        match ReadParen(toks[1..])
        case None => None
        case Some((d, rest)) => Some((Exists(source, d), rest))
      )
      case _ => None
  }

  /** A disjunction between parentheses. */
  function ReadParen(toks: seq<Tok>): (r: Option<(Disj, seq<Tok>)>)
    ensures r.Some? ==> |r.value.1| < |toks|
    decreases |toks|, 0
  {
    if toks == [] || toks[0] != LParen then None
    else
      match ReadDisj(toks[1..])
      case None => None
      case Some((d, rest)) => if rest != [] && rest[0] == RParen then Some((d, rest[1..])) else None
  }

  function ReadConj(toks: seq<Tok>): (r: Option<(Conj, seq<Tok>)>)
    ensures r.Some? ==> |r.value.1| < |toks|
    decreases |toks|, 2
  {
    match ReadUnit(toks)
    case None => None
    case Some((u, rest)) => ReadConjTail(Single(u), rest)
  }

  function ReadConjTail(left: Conj, toks: seq<Tok>): (r: Option<(Conj, seq<Tok>)>)
    ensures r.Some? ==> |r.value.1| <= |toks|
    decreases |toks|, 1
  {
    if toks == [] || toks[0] != And then Some((left, toks))
    else
      match ReadUnit(toks[1..])
      case None => None
      case Some((u, rest)) => ReadConjTail(AndThen(left, u), rest)
  }

  function ReadDisj(toks: seq<Tok>): (r: Option<(Disj, seq<Tok>)>)
    ensures r.Some? ==> |r.value.1| < |toks|
    decreases |toks|, 4
  {
    match ReadConj(toks)
    case None => None
    case Some((c, rest)) => ReadDisjTail(One(c), rest)
  }

  function ReadDisjTail(left: Disj, toks: seq<Tok>): (r: Option<(Disj, seq<Tok>)>)
    ensures r.Some? ==> |r.value.1| <= |toks|
    decreases |toks|, 3
  {
    if toks == [] || toks[0] != Or then Some((left, toks))
    else
      match ReadConj(toks[1..])
      case None => None
      case Some((c, rest)) => ReadDisjTail(OrThen(left, c), rest)
  }

  // ----- reading undoes rendering

  lemma {:induction false} UnitReadsBack(u: Unit, rest: seq<Tok>)
    ensures ReadUnit(RenderUnit(u) + rest) == Some((u, rest))
  {
    match u
    case Cond(p) =>
      assert (RenderUnit(u) + rest)[1..] == rest;
    case Neg(u') =>
      UnitReadsBack(u', rest);
      assert (RenderUnit(u) + rest)[1..] == RenderUnit(u') + rest;
    case Paren(d) =>
      ParenReadsBack(d, rest);
    case Exists(source, d) =>
      ParenReadsBack(d, rest);
      assert (RenderUnit(u) + rest)[1..] == [LParen] + RenderDisj(d) + [RParen] + rest;
  }

  lemma {:induction false} ParenReadsBack(d: Disj, rest: seq<Tok>)
    ensures ReadParen([LParen] + RenderDisj(d) + [RParen] + rest) == Some((d, rest))
    decreases d, 1
  {
    DisjReadsBack(d, [RParen] + rest);
    assert ([LParen] + RenderDisj(d) + [RParen] + rest)[1..] == RenderDisj(d) + ([RParen] + rest);
    assert ([RParen] + rest)[1..] == rest;
  }

  lemma {:induction false} ConjReadsBack(c: Conj, rest: seq<Tok>)
    ensures ReadConj(RenderConj(c) + rest) == ReadConjTail(c, rest)
  {
    match c
    case Single(u) =>
      UnitReadsBack(u, rest);
    case AndThen(c', u) =>
      var after := [And] + RenderUnit(u) + rest;
      ConjReadsBack(c', after);
      UnitReadsBack(u, rest);
      assert RenderConj(c) + rest == RenderConj(c') + after;
      assert after[1..] == RenderUnit(u) + rest;
  }

  lemma {:induction false} DisjReadsBack(d: Disj, rest: seq<Tok>)
    requires rest == [] || rest[0] != And
    ensures ReadDisj(RenderDisj(d) + rest) == ReadDisjTail(d, rest)
    decreases d, 0
  {
    match d
    case One(c) =>
      ConjReadsBack(c, rest);
    case OrThen(d', c) =>
      var after := [Or] + RenderConj(c) + rest;
      DisjReadsBack(d', after);
      ConjReadsBack(c, rest);
      assert RenderDisj(d) + rest == RenderDisj(d') + after;
      assert after[1..] == RenderConj(c) + rest;
  }

  /** The text of a condition, read by SQL's precedence, is that condition. */
  lemma TextReadsBack(d: Disj)
    ensures ReadDisj(RenderDisj(d)) == Some((d, []))
  {
    DisjReadsBack(d, []);
    assert RenderDisj(d) + [] == RenderDisj(d);
  }

  // ----- joining conjunctions

  /** What "a AND b" is when a and b are written without parentheses. */
  function Join(a: Conj, b: Conj): Conj {
    match b
    case Single(u) => AndThen(a, u)
    case AndThen(b', u) => AndThen(Join(a, b'), u)
  }

  lemma {:induction false} JoinRenders(a: Conj, b: Conj)
    ensures RenderConj(Join(a, b)) == RenderConj(a) + [And] + RenderConj(b)
  {
    if b.AndThen? {
      JoinRenders(a, b.c);
    }
  }

  lemma {:induction false} JoinMeans(a: Conj, b: Conj, env: Env, elem: Elem)
    ensures EvalConj(Join(a, b), env, elem) == And3(EvalConj(a, env, elem), EvalConj(b, env, elem))
  {
    if b.AndThen? {
      JoinMeans(a, b.c, env, elem);
    }
  }

  // ----- placeholders

  function ParamsOf(toks: seq<Tok>): seq<nat> {
    if toks == [] then []
    else
      var last := toks[|toks| - 1];
      ParamsOf(toks[..|toks| - 1])
      + if last.Word? && (last.p.Compare? || last.p.Like?) then [last.p.param] else []
  }

  lemma {:induction false} ParamsConcat(a: seq<Tok>, b: seq<Tok>)
    ensures ParamsOf(a + b) == ParamsOf(a) + ParamsOf(b)
  {
    if b == [] {
      assert a + b == a;
    } else {
      ParamsConcat(a, b[..|b| - 1]);
      assert (a + b)[..|a + b| - 1] == a + b[..|b| - 1];
    }
  }

  /** The placeholders from n on. */
  function From(n: nat, count: nat): seq<nat> {
    seq(count, i => n + i)
  }

  lemma FromConcat(n: nat, a: nat, b: nat)
    ensures From(n, a) + From(n + a, b) == From(n, a + b)
  {
  }
}
