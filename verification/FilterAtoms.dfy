/**
 The single conditions of a SCIM filter (section 3.4.2.2 of RFC 7644): which of them the
 compiler accepts, the SQL it writes for each, and what each means.
 */
module FilterAtoms {
  import opened Text
  import opened LikePattern
  import opened Sql

  datatype Op = Eq | Ne | Co | Sw | Ew | Gt | Ge | Lt | Le

  /** What an attribute name stands for; the tables that say so are a parameter. */
  datatype Attr =
    | Plain(e: Expr, fold: bool)                              // a text column or constant
    | Boolean(e: Expr)
    | Time(e: Expr)
    | Reference(e: Expr, byId: Expr)                          // manager.$ref
    | Collection(column: string)                              // emails
    | Field(column: string, key: string, flag: bool)          // emails.value
    | Member(relation: string, e: Expr, isRef: bool, mayLack: bool)
    | Schemas(base: string, extension: string, columns: seq<Expr>)
    | OneOf(columns: seq<Expr>, compared: bool)               // name; a search over all types accepts comparisons of it
    | Foreign(flag: bool, time: bool)                         // an attribute of other resources
    | Unknown

  /** A test of one sub-attribute of a collection's element; without an operator, of its presence. */
  datatype Clause = Clause(key: string, flag: bool, op: Option<Op>, value: string)

  datatype Atom =
    | Has(attr: Attr)
    | Test(attr: Attr, op: Op, value: string)
    | Path(column: string, clause: Clause, sub: Option<Clause>, foreign: bool)

  /** How values are read: booleans, times brought to UTC, and the identifier inside a reference. */
  datatype Values = Values(flag: string -> Option<bool>, time: string -> Option<string>, id: string -> Option<string>)

  // ----- what is accepted

  predicate IsPattern(op: Op) {
    op == Co || op == Sw || op == Ew
  }

  predicate IsEquality(op: Op) {
    op == Eq || op == Ne
  }

  predicate AcceptsTest(values: Values, attr: Attr, op: Op, value: string) {
    match attr
    case Plain(_, _) => true
    case Boolean(_) => IsEquality(op) && values.flag(value).Some?
    case Time(_) => !IsPattern(op) && values.time(value).Some?
    case Reference(_, _) => true
    case Collection(_) => true
    case Field(_, _, flag) => if flag then op == Eq && values.flag(value).Some? else op == Eq || IsPattern(op)
    case Member(_, _, _, _) => true
    case Schemas(_, _, _) => true
    case OneOf(_, compared) => compared
    case Foreign(flag, time) =>
      && (flag ==> IsEquality(op) && values.flag(value).Some?)
      && (time ==> !IsPattern(op) && values.time(value).Some?)
    case Unknown => false
  }

  predicate AcceptsClause(values: Values, c: Clause) {
    c.flag && c.op.Some? ==> IsEquality(c.op.value) && values.flag(c.value).Some?
  }

  predicate Accepts(values: Values, atom: Atom) {
    match atom
    case Has(attr) => attr != Unknown && (attr.OneOf? ==> attr.columns != [])
    case Test(attr, op, value) => AcceptsTest(values, attr, op, value)
    case Path(_, clause, sub, _) => AcceptsClause(values, clause) && (sub.Some? ==> AcceptsClause(values, sub.value))
  }

  // ----- the SQL written for them

  function Of(p: Pred): Conj {
    Single(Cond(p))
  }

  function RelOf(op: Op): Rel {
    match op
    case Eq => Equal
    case Ne => Unequal
    case Gt => Greater
    case Ge => GreaterEq
    case Lt => Less
    case _ => LessEq
  }

  function SideOf(op: Op): Side {
    match op case Co => Anywhere case Sw => AtStart case _ => AtEnd
  }

  function ArgOf(op: Op, value: string): Value {
    if IsPattern(op) then Str(PatternFor(SideOf(op), value)) else Str(value)
  }

  /** A comparison of a column; "ne" also holds where the column is NULL. */
  function ColumnTest(e: Expr, op: Op, fold: bool, n: nat): Unit {
    match op
    case Eq => Cond(Compare(Equal, e, fold, n))
    case Ne => Paren(OrThen(One(Of(Compare(Unequal, e, fold, n))), Of(IsNull(e))))
    case Co => Cond(Like(e, fold, n))
    case Sw => Cond(Like(e, fold, n))
    case Ew => Cond(Like(e, fold, n))
    case _ => Cond(Compare(RelOf(op), e, false, n))
  }

  /** A comparison of an element's sub-attribute, always without regard to case unless boolean. */
  function ElemTest(c: Clause, n: nat): Unit {
    var e := Item(c.key);
    match c.op
    case None =>
      if c.flag then Cond(NotNull(e)) else Paren(One(AndThen(Of(NotNull(e)), Cond(NotBlank(e)))))
    case Some(op) =>
      if c.flag then
        if op == Eq then Cond(Compare(Equal, e, false, n))
        else Paren(OrThen(One(Of(Compare(Unequal, e, false, n))), Of(IsNull(e))))
      else if op == Ne then Paren(OrThen(One(Of(IsNull(e))), Of(Compare(Unequal, e, true, n))))
      else if IsPattern(op) then Cond(Like(e, true, n))
      else Cond(Compare(RelOf(op), e, true, n))
  }

  function FlagText(b: bool): string {
    if b then "true" else "false"
  }

  function ElemArgs(values: Values, c: Clause): seq<Value>
    requires AcceptsClause(values, c)
  {
    match c.op
    case None => []
    case Some(op) => if c.flag then [Str(FlagText(values.flag(c.value).value))] else [ArgOf(op, c.value)]
  }

  /** Some element of the collection satisfies the inner condition. */
  function SomeElement(column: string, inner: Conj): Conj {
    Single(Paren(One(
      AndThen(AndThen(AndThen(Of(JsonNotNull(column)), Cond(JsonIsArray(column))), Cond(JsonNotEmpty(column))),
              Exists(Items(column), One(inner))))))
  }

  /** Some membership row of the resource; TRUE stands for the join condition, which its rows satisfy. */
  function SomeRow(relation: string, extra: Option<Unit>): Conj {
    Single(Exists(Source.Related(relation),
                  One(match extra case None => Of(True) case Some(u) => AndThen(Of(True), u))))
  }

  function AnyPresent(columns: seq<Expr>): Disj
    requires columns != []
  {
    if |columns| == 1 then One(Of(NotNull(columns[0])))
    else OrThen(AnyPresent(columns[..|columns| - 1]), Of(NotNull(columns[|columns| - 1])))
  }

  /** The condition written for an accepted atom when the next placeholder is n, and its arguments. */
  function Emit(values: Values, atom: Atom, n: nat): (Conj, seq<Value>)
    requires Accepts(values, atom)
  {
    match atom
    case Has(attr) => (EmitHas(attr), [])
    case Test(attr, op, value) => EmitTest(values, attr, op, value, n)
    case Path(column, clause, sub, foreign) =>
      if foreign then (Of(False), [])
      else
        var first := Single(ElemTest(clause, n));
        var args := ElemArgs(values, clause);
        match sub
        case None => (SomeElement(column, first), args)
        case Some(c) => (SomeElement(column, AndThen(first, ElemTest(c, n + |args|))), args + ElemArgs(values, c))
  }

  function EmitHas(attr: Attr): Conj
    requires attr != Unknown && (attr.OneOf? ==> attr.columns != [])
  {
    match attr
    case Plain(e, _) => Of(NotNull(e))
    case Boolean(e) => Of(NotNull(e))
    case Time(e) => Of(NotNull(e))
    case Reference(e, _) => Of(NotNull(e))
    case Collection(column) => AndThen(Of(JsonNotNull(column)), Cond(JsonNotEmpty(column)))
    case Field(column, key, _) => SomeElement(column, AndThen(Of(NotNull(Item(key))), Cond(NotBlank(Item(key)))))
    case Member(relation, e, _, mayLack) => SomeRow(relation, if mayLack then Some(Cond(NotNull(e))) else None)
    case Schemas(_, _, _) => Of(True)
    case OneOf(columns, _) => if |columns| == 1 then Of(NotNull(columns[0])) else Single(Paren(AnyPresent(columns)))
    case Foreign(_, _) => Of(False)
  }

  /** The base schema is always there, the extension when one of its columns is set. */
  function SchemasTest(core: Unit, other: Unit, columns: seq<Expr>, op: Op): Unit
    requires columns != []
  {
    var present := Paren(AnyPresent(columns));
    if op == Ne then
      var missingOr := OrThen(One(Single(Neg(present))), Single(other));
      Paren(One(AndThen(Single(core), Paren(missingOr))))
    else
      var presentAnd := AndThen(Single(present), other);
      Paren(OrThen(One(Single(core)), Single(Paren(One(presentAnd)))))
  }

  function EmitTest(values: Values, attr: Attr, op: Op, value: string, n: nat): (Conj, seq<Value>)
    requires AcceptsTest(values, attr, op, value)
  {
    match attr
    case Plain(e, fold) => (Single(ColumnTest(e, op, fold, n)), [ArgOf(op, value)])
    case Boolean(e) => (Single(ColumnTest(e, op, false, n)), [Flag(values.flag(value).value)])
    case Time(e) => (Single(ColumnTest(e, op, false, n)), [ArgOf(op, values.time(value).value)])
    case Reference(e, byId) =>
      if IsEquality(op) && values.id(value).Some? then
        (Single(ColumnTest(byId, op, true, n)), [ArgOf(op, values.id(value).value)])
      else (Single(ColumnTest(e, op, false, n)), [ArgOf(op, value)])
    case Collection(column) => (Single(ColumnTest(Column(column), op, false, n)), [ArgOf(op, value)])
    case Field(column, key, flag) =>
      var c := Clause(key, flag, Some(op), value);
      (SomeElement(column, Single(ElemTest(c, n))), ElemArgs(values, c))
    case Member(relation, e, isRef, _) =>
      (SomeRow(relation, Some(ColumnTest(e, op, true, n))), [ArgOf(op, Referred(values, isRef, op, value))])
    case Schemas(base, extension, columns) =>
      var core := ColumnTest(Literal(base), op, false, n);
      if columns == [] then (Single(core), [ArgOf(op, value)])
      else
        var other := ColumnTest(Literal(extension), op, false, n + 1);
        var unit := SchemasTest(core, other, columns, op);
        (Single(unit), [ArgOf(op, value), ArgOf(op, value)])
    case OneOf(_, _) => (Of(False), [])
    case Foreign(_, _) => (Of(False), [])
  }

  /** The identifier inside a reference, for equality and inequality on a reference. */
  function Referred(values: Values, isRef: bool, op: Op, value: string): string {
    if isRef && IsEquality(op) && values.id(value).Some? then values.id(value).value else value
  }

  // ----- what an atom means

  function Fold(db: Database, fold: bool, s: string): string {
    if fold then MapChars(db.lower, s) else s
  }

  /** A stored text satisfies a comparison with a literal value. */
  predicate TextHolds(db: Database, op: Op, fold: bool, stored: string, value: string) {
    var a, b := Fold(db, fold, stored), Fold(db, fold, value);
    match op
    case Eq => a == b
    case Ne => a != b
    case Co => Contains(a, b)
    case Sw => b <= a
    case Ew => EndsWith(a, b)
    case Gt => db.less(b, a)
    case Ge => a == b || db.less(b, a)
    case Lt => db.less(a, b)
    case Le => a == b || db.less(a, b)
  }

  /** Ordering comparisons of columns look at the stored text as it is. */
  predicate ColumnHolds(db: Database, op: Op, fold: bool, stored: Value, value: string) {
    match stored
    case Str(s) => TextHolds(db, op, fold && (IsEquality(op) || IsPattern(op)), s, value)
    case Flag(_) => op == Ne
  }

  /** An absent attribute satisfies "ne" and nothing else. */
  predicate ColumnMatches(db: Database, op: Op, fold: bool, stored: Option<Value>, value: string) {
    match stored
    case None => op == Ne
    case Some(v) => ColumnHolds(db, op, fold, v, value)
  }

  predicate ElemHolds(values: Values, db: Database, c: Clause, elem: Elem)
    requires AcceptsClause(values, c)
  {
    match elem(c.key)
    case None => c.op == Some(Ne)
    case Some(s) =>
      match c.op
      case None => c.flag || s != ""
      case Some(op) =>
        if c.flag then (op == Eq) == (s == FlagText(values.flag(c.value).value))
        else TextHolds(db, op, true, s, c.value)
  }

  ghost predicate SomeElem(row: Row, source: Source, p: Elem -> bool) {
    var es := Elements(row, source);
    exists k :: 0 <= k < |es| && p(es[k])
  }

  function NoElem(): Elem {
    _ => None
  }

  function Stored(row: Row, e: Expr): Option<Value> {
    match e
    case Column(name) => row.columns(name)
    case Literal(text) => Some(Str(text))
    case Item(_) => None
  }

  predicate Carries(row: Row, columns: seq<Expr>) {
    exists k :: 0 <= k < |columns| && Stored(row, columns[k]).Some?
  }

  /** The condition, read as section 3.4.2.2 of RFC 7644 does: true or false of every resource. */
  ghost predicate Holds(values: Values, db: Database, atom: Atom, row: Row)
    requires Accepts(values, atom)
  {
    match atom
    case Has(attr) => HasHolds(attr, row)
    case Test(attr, op, value) => TestHolds(values, db, attr, op, value, row)
    case Path(column, clause, sub, foreign) =>
      !foreign && SomeElem(row, Items(column), (elem: Elem) =>
        ElemHolds(values, db, clause, elem) && (sub.Some? ==> ElemHolds(values, db, sub.value, elem)))
  }

  ghost predicate HasHolds(attr: Attr, row: Row) {
    match attr
    case Plain(e, _) => Stored(row, e).Some?
    case Boolean(e) => Stored(row, e).Some?
    case Time(e) => Stored(row, e).Some?
    case Reference(e, _) => Stored(row, e).Some?
    case Collection(column) => Elements(row, Items(column)) != []
    case Field(column, key, _) => SomeElem(row, Items(column), (elem: Elem) => elem(key).Some? && elem(key) != Some(""))
    case Member(relation, e, _, mayLack) =>
      SomeElem(row, Source.Related(relation), (elem: Elem) => mayLack ==> Within(e, elem).Some?)
    case Schemas(_, _, _) => true
    case OneOf(columns, _) => Carries(row, columns)
    case Foreign(_, _) => false
    case Unknown => false
  }

  function Within(e: Expr, elem: Elem): Option<Value> {
    match e
    case Item(key) => (match elem(key) case None => None case Some(s) => Some(Str(s)))
    case Literal(text) => Some(Str(text))
    case Column(_) => None
  }

  ghost predicate TestHolds(values: Values, db: Database, attr: Attr, op: Op, value: string, row: Row)
    requires AcceptsTest(values, attr, op, value)
  {
    match attr
    case Plain(e, fold) => ColumnMatches(db, op, fold, Stored(row, e), value)
    case Boolean(e) => (op == Eq) == (Stored(row, e) == Some(Flag(values.flag(value).value)))
    case Time(e) => ColumnMatches(db, op, false, Stored(row, e), values.time(value).value)
    case Reference(e, byId) =>
      if IsEquality(op) && values.id(value).Some? then ColumnMatches(db, op, true, Stored(row, byId), values.id(value).value)
      else ColumnMatches(db, op, false, Stored(row, e), value)
    case Collection(column) => ColumnMatches(db, op, false, Stored(row, Column(column)), value)
    case Field(column, key, flag) =>
      SomeElem(row, Items(column), (elem: Elem) => ElemHolds(values, db, Clause(key, flag, Some(op), value), elem))
    case Member(relation, e, isRef, _) =>
      SomeElem(row, Source.Related(relation), (elem: Elem) =>
        ColumnMatches(db, op, true, Within(e, elem), Referred(values, isRef, op, value)))
    case Schemas(base, extension, columns) =>
      var core := TextHolds(db, op, false, base, value);
      var other := TextHolds(db, op, false, extension, value);
      if op == Ne then core && (Carries(row, columns) ==> other)
      else core || (Carries(row, columns) && other)
    case OneOf(_, _) => false
    case Foreign(_, _) => false
  }

  /** The attribute compared, where its absence leaves SQL's answer open. */
  function Operand(values: Values, atom: Atom): Option<Expr> {
    match atom
    case Test(attr, op, value) =>
      if op == Ne then None
      else (
        match attr
        case Plain(e, _) => Some(e)
        case Boolean(e) => Some(e)
        case Time(e) => Some(e)
        case Reference(e, byId) => if op == Eq && values.id(value).Some? then Some(byId) else Some(e)
        case Collection(column) => Some(Column(column))
        case _ => None
      )
    case _ => None
  }

  /** Whether SQL can tell: it cannot where a comparison other than "ne" meets an absent attribute. */
  predicate Decided(values: Values, atom: Atom, row: Row) {
    Operand(values, atom).Some? ==> Stored(row, Operand(values, atom).value).Some?
  }

  /** The three-valued reading of an atom. */
  ghost function Meaning(values: Values, db: Database, atom: Atom, row: Row): Tri
    requires Accepts(values, atom)
  {
    if Decided(values, atom, row) then Decide(Holds(values, db, atom, row)) else U
  }

  // ----- tables that make sense

  predicate OfRow(e: Expr) {
    !e.Item?
  }

  predicate OfElem(e: Expr) {
    !e.Column?
  }

  /** Attributes of the resource are columns, those of a member are of its row. */
  predicate Placed(attr: Attr) {
    match attr
    case Plain(e, _) => OfRow(e)
    case Boolean(e) => OfRow(e)
    case Time(e) => OfRow(e)
    case Reference(e, byId) => OfRow(e) && OfRow(byId)
    case Member(_, e, _, _) => OfElem(e)
    case Schemas(_, _, columns) => forall k | 0 <= k < |columns| :: OfRow(columns[k])
    case OneOf(columns, _) => forall k | 0 <= k < |columns| :: OfRow(columns[k])
    case _ => true
  }

  predicate PlacedAtom(atom: Atom) {
    match atom
    case Has(attr) => Placed(attr)
    case Test(attr, _, _) => Placed(attr)
    case Path(_, _, _, _) => true
  }

  // ----- the SQL means what the atom means

  /** The placeholders from n on are bound to the arguments. */
  ghost predicate Binds(env: Env, n: nat, args: seq<Value>) {
    forall k | 0 <= k < |args| :: env.bind(n + k) == args[k]
  }

  lemma EitherMeans(p: Pred, q: Pred, env: Env, elem: Elem)
    ensures EvalUnit(Paren(OrThen(One(Of(p)), Of(q))), env, elem) == Or3(EvalPred(p, env, elem), EvalPred(q, env, elem))
  {
    assert EvalUnit(Cond(p), env, elem) == EvalPred(p, env, elem);
    assert EvalUnit(Cond(q), env, elem) == EvalPred(q, env, elem);
    assert EvalConj(Of(p), env, elem) == EvalPred(p, env, elem);
    assert EvalConj(Of(q), env, elem) == EvalPred(q, env, elem);
    assert EvalDisj(One(Of(p)), env, elem) == EvalPred(p, env, elem);
  }

  lemma BothMeans(p: Pred, q: Pred, env: Env, elem: Elem)
    ensures EvalConj(AndThen(Of(p), Cond(q)), env, elem) == And3(EvalPred(p, env, elem), EvalPred(q, env, elem))
  {
    assert EvalUnit(Cond(p), env, elem) == EvalPred(p, env, elem);
    assert EvalUnit(Cond(q), env, elem) == EvalPred(q, env, elem);
  }

  lemma ColumnTestMeans(e: Expr, op: Op, fold: bool, n: nat, v: string, env: Env, elem: Elem)
    requires KeepsSpecials(env.db.lower) && env.bind(n) == ArgOf(op, v)
    ensures EvalUnit(ColumnTest(e, op, fold, n), env, elem)
         == match Term(e, env, elem)
            case None => if op == Ne then T else U
            case Some(stored) => Decide(ColumnHolds(env.db, op, fold, stored, v))
  {
    if IsPattern(op) {
      LikeMeans(e, op, fold, n, v, env, elem);
    } else if op == Ne {
      EitherMeans(Compare(Unequal, e, fold, n), IsNull(e), env, elem);
    }
  }

  lemma LikeMeans(e: Expr, op: Op, fold: bool, n: nat, v: string, env: Env, elem: Elem)
    requires KeepsSpecials(env.db.lower) && env.bind(n) == ArgOf(op, v) && IsPattern(op)
    ensures EvalUnit(Cond(Like(e, fold, n)), env, elem)
         == match Term(e, env, elem)
            case None => U
            case Some(stored) => Decide(ColumnHolds(env.db, op, fold, stored, v))
  {
    var stored := Term(e, env, elem);
    if stored.Some? && stored.value.Str? {
      PatternMeans(env.db, op, fold, v, stored.value.s);
      assert FoldValue(env.db, fold, stored.value) == Str(Fold(env.db, fold, stored.value.s));
      assert FoldValue(env.db, fold, env.bind(n)) == Str(Fold(env.db, fold, PatternFor(SideOf(op), v)));
    }
  }

  lemma PatternMeans(db: Database, op: Op, fold: bool, v: string, s: string)
    requires KeepsSpecials(db.lower) && IsPattern(op)
    ensures Matches(Fold(db, fold, PatternFor(SideOf(op), v)), Fold(db, fold, s)) <==> TextHolds(db, op, fold, s, v)
  {
    PatternIsLiteral(SideOf(op), v, s);
    LoweredPatternIsLiteral(db.lower, SideOf(op), v, s);
  }

  lemma BooleanTestMeans(e: Expr, op: Op, n: nat, b: bool, env: Env, elem: Elem)
    requires IsEquality(op) && env.bind(n) == Flag(b)
    ensures EvalUnit(ColumnTest(e, op, false, n), env, elem)
         == match Term(e, env, elem)
            case None => if op == Ne then T else U
            case Some(stored) => Decide((op == Eq) == (stored == Flag(b)))
  {
    EitherMeans(Compare(Unequal, e, false, n), IsNull(e), env, elem);
  }

  /** Inside EXISTS only "true" matters. */
  lemma ElemTestMeans(values: Values, c: Clause, n: nat, env: Env, elem: Elem)
    requires KeepsSpecials(env.db.lower) && AcceptsClause(values, c) && Binds(env, n, ElemArgs(values, c))
    ensures EvalUnit(ElemTest(c, n), env, elem) == T <==> ElemHolds(values, env.db, c, elem)
  {
    if c.op.None? {
      ElemPresentMeans(values, c, n, env, elem);
    } else {
      assert ElemArgs(values, c) != [];
      assert env.bind(n + 0) == ElemArgs(values, c)[0];
      if c.flag {
        EitherMeans(Compare(Unequal, Item(c.key), false, n), IsNull(Item(c.key)), env, elem);
      } else {
        ElemTextMeans(values, c, n, env, elem);
      }
    }
  }

  lemma ElemPresentMeans(values: Values, c: Clause, n: nat, env: Env, elem: Elem)
    requires c.op.None?
    ensures EvalUnit(ElemTest(c, n), env, elem) == T <==> ElemHolds(values, env.db, c, elem)
  {
    var e := Item(c.key);
    BothMeans(NotNull(e), NotBlank(e), env, elem);
    assert EvalUnit(Paren(One(AndThen(Of(NotNull(e)), Cond(NotBlank(e))))), env, elem)
        == EvalConj(AndThen(Of(NotNull(e)), Cond(NotBlank(e))), env, elem);
  }

  lemma ElemTextMeans(values: Values, c: Clause, n: nat, env: Env, elem: Elem)
    requires KeepsSpecials(env.db.lower) && c.op.Some? && !c.flag && env.bind(n) == ArgOf(c.op.value, c.value)
    ensures EvalUnit(ElemTest(c, n), env, elem) == T <==> ElemHolds(values, env.db, c, elem)
  {
    if IsPattern(c.op.value) {
      LikeMeans(Item(c.key), c.op.value, true, n, c.value, env, elem);
    } else if c.op == Some(Ne) {
      EitherMeans(IsNull(Item(c.key)), Compare(Unequal, Item(c.key), true, n), env, elem);
    }
  }

  lemma SomeElementMeans(column: string, inner: Conj, env: Env, elem: Elem, p: Elem -> bool)
    requires forall x: Elem :: EvalConj(inner, env, x) == T <==> p(x)
    ensures EvalConj(SomeElement(column, inner), env, elem) == Decide(SomeElem(env.row, Items(column), p))
  {
    var es := Elements(env.row, Items(column));
    assert EvalUnit(Exists(Items(column), One(inner)), env, elem)
        == Decide(exists k :: 0 <= k < |es| && EvalDisj(One(inner), env, es[k]) == T);
    assert forall k | 0 <= k < |es| :: EvalDisj(One(inner), env, es[k]) == EvalConj(inner, env, es[k]);
    var a, b, c := JsonNotNull(column), JsonIsArray(column), JsonNotEmpty(column);
    BothMeans(a, b, env, elem);
    var ab := AndThen(Of(a), Cond(b));
    assert EvalConj(AndThen(ab, Cond(c)), env, elem) == And3(EvalConj(ab, env, elem), EvalPred(c, env, elem)) by {
      assert EvalUnit(Cond(c), env, elem) == EvalPred(c, env, elem);
    }
    var abc := AndThen(ab, Cond(c));
    var all := AndThen(abc, Exists(Items(column), One(inner)));
    assert EvalUnit(Paren(One(all)), env, elem) == EvalDisj(One(all), env, elem) == EvalConj(all, env, elem);
  }

  lemma SomeRowMeans(relation: string, extra: Option<Unit>, env: Env, elem: Elem, p: Elem -> bool)
    requires forall x: Elem :: (extra.None? || EvalUnit(extra.value, env, x) == T) <==> p(x)
    ensures EvalConj(SomeRow(relation, extra), env, elem) == Decide(SomeElem(env.row, Source.Related(relation), p))
  {
    var es := Elements(env.row, Source.Related(relation));
    var inner := One(match extra case None => Of(True) case Some(u) => AndThen(Of(True), u));
    forall k | 0 <= k < |es|
      ensures EvalDisj(inner, env, es[k]) == T <==> p(es[k])
    {
      assert (extra.None? || EvalUnit(extra.value, env, es[k]) == T) <==> p(es[k]);
      assert EvalUnit(Cond(True), env, es[k]) == T;
      assert EvalConj(Of(True), env, es[k]) == T;
    }
  }

  lemma {:induction false} AnyPresentMeans(columns: seq<Expr>, env: Env, elem: Elem)
    requires columns != [] && forall k | 0 <= k < |columns| :: OfRow(columns[k])
    ensures EvalDisj(AnyPresent(columns), env, elem) == Decide(Carries(env.row, columns))
  {
    var last := columns[|columns| - 1];
    assert Term(last, env, elem) == Stored(env.row, last);
    assert EvalUnit(Cond(NotNull(last)), env, elem) == Decide(Stored(env.row, last).Some?);
    assert EvalConj(Of(NotNull(last)), env, elem) == Decide(Stored(env.row, last).Some?);
    if |columns| > 1 {
      var front := columns[..|columns| - 1];
      AnyPresentMeans(front, env, elem);
      assert Carries(env.row, columns) <==> Carries(env.row, front) || Stored(env.row, last).Some? by {
        if Carries(env.row, front) {
          var k :| 0 <= k < |front| && Stored(env.row, front[k]).Some?;
          assert columns[k] == front[k];
        }
        if Carries(env.row, columns) {
          var k :| 0 <= k < |columns| && Stored(env.row, columns[k]).Some?;
          assert k < |front| ==> front[k] == columns[k];
        }
      }
    }
  }

  lemma HasMeans(attr: Attr, env: Env)
    requires attr != Unknown && (attr.OneOf? ==> attr.columns != []) && Placed(attr)
    ensures EvalConj(EmitHas(attr), env, NoElem()) == Decide(HasHolds(attr, env.row))
  {
    match attr
    case Plain(e, _) => PresentMeans(e, env);
    case Boolean(e) => PresentMeans(e, env);
    case Time(e) => PresentMeans(e, env);
    case Reference(e, _) => PresentMeans(e, env);
    case Collection(column) =>
      BothMeans(JsonNotNull(column), JsonNotEmpty(column), env, NoElem());
    case Field(column, key, _) =>
      var inner := AndThen(Of(NotNull(Item(key))), Cond(NotBlank(Item(key))));
      forall x: Elem
        ensures EvalConj(inner, env, x) == T <==> x(key).Some? && x(key) != Some("")
      {
        BothMeans(NotNull(Item(key)), NotBlank(Item(key)), env, x);
      }
      SomeElementMeans(column, inner, env, NoElem(), (x: Elem) => x(key).Some? && x(key) != Some(""));
    case Member(relation, e, _, mayLack) =>
      var extra := if mayLack then Some(Cond(NotNull(e))) else None;
      SomeRowMeans(relation, extra, env, NoElem(), (x: Elem) => mayLack ==> Within(e, x).Some?);
    case OneOf(columns, _) =>
      AnyPresentMeans(columns, env, NoElem());
      if |columns| == 1 {
        PresentMeans(columns[0], env);
        assert Carries(env.row, columns) <==> Stored(env.row, columns[0]).Some?;
      } else {
        assert EvalUnit(Paren(AnyPresent(columns)), env, NoElem()) == EvalDisj(AnyPresent(columns), env, NoElem());
      }
    case Schemas(_, _, _) =>
      assert EvalUnit(Cond(True), env, NoElem()) == T;
    case Foreign(_, _) =>
      assert EvalUnit(Cond(False), env, NoElem()) == F;
  }

  lemma PresentMeans(e: Expr, env: Env)
    requires OfRow(e)
    ensures EvalConj(Of(NotNull(e)), env, NoElem()) == Decide(Stored(env.row, e).Some?)
  {
    assert Term(e, env, NoElem()) == Stored(env.row, e);
    assert EvalUnit(Cond(NotNull(e)), env, NoElem()) == Decide(Stored(env.row, e).Some?);
  }

  /** A comparison of a column, as the two-valued reading has it wherever SQL can tell. */
  lemma PlainMeans(e: Expr, op: Op, fold: bool, n: nat, v: string, env: Env)
    requires KeepsSpecials(env.db.lower) && env.bind(n) == ArgOf(op, v) && OfRow(e)
    ensures EvalConj(Single(ColumnTest(e, op, fold, n)), env, NoElem())
         == if op == Ne || Stored(env.row, e).Some? then Decide(ColumnMatches(env.db, op, fold, Stored(env.row, e), v)) else U
  {
    assert Term(e, env, NoElem()) == Stored(env.row, e);
    ColumnTestMeans(e, op, fold, n, v, env, NoElem());
  }

  lemma SchemasMeans(values: Values, attr: Attr, op: Op, value: string, n: nat, env: Env)
    requires attr.Schemas? && Placed(attr)
    requires KeepsSpecials(env.db.lower) && Binds(env, n, EmitTest(values, attr, op, value, n).1)
    ensures EvalConj(EmitTest(values, attr, op, value, n).0, env, NoElem())
         == Decide(TestHolds(values, env.db, attr, op, value, env.row))
  {
    var Schemas(base, extension, columns) := attr;
    var core, other := ColumnTest(Literal(base), op, false, n), ColumnTest(Literal(extension), op, false, n + 1);
    assert EmitTest(values, attr, op, value, n).1[0] == ArgOf(op, value);
    assert env.bind(n + 0) == ArgOf(op, value);
    ColumnTestMeans(Literal(base), op, false, n, value, env, NoElem());
    var c := Decide(TextHolds(env.db, op, false, base, value));
    assert EvalUnit(core, env, NoElem()) == c;
    if columns == [] {
      assert EvalConj(Single(core), env, NoElem()) == c;
    } else {
      assert env.bind(n + 1) == EmitTest(values, attr, op, value, n).1[1] == ArgOf(op, value);
      ColumnTestMeans(Literal(extension), op, false, n + 1, value, env, NoElem());
      var o := Decide(TextHolds(env.db, op, false, extension, value));
      assert EvalUnit(other, env, NoElem()) == o;
      AnyPresentMeans(columns, env, NoElem());
      SchemasShape(core, other, columns, op, env, c, o, Decide(Carries(env.row, columns)));
    }
  }

  lemma SchemasShape(core: Unit, other: Unit, columns: seq<Expr>, op: Op, env: Env, c: Tri, o: Tri, p: Tri)
    requires columns != []
    requires EvalUnit(core, env, NoElem()) == c && EvalUnit(other, env, NoElem()) == o
    requires EvalDisj(AnyPresent(columns), env, NoElem()) == p
    ensures EvalConj(Single(SchemasTest(core, other, columns, op)), env, NoElem())
         == if op == Ne then And3(c, Or3(Not3(p), o)) else Or3(c, And3(p, o))
  {
    var present := Paren(AnyPresent(columns));
    var none := NoElem();
    assert EvalUnit(present, env, none) == p;
    assert EvalUnit(Neg(present), env, none) == Not3(p);
    var orPart := OrThen(One(Single(Neg(present))), Single(other));
    assert EvalDisj(One(Single(Neg(present))), env, none) == Not3(p) by {
      assert EvalConj(Single(Neg(present)), env, none) == Not3(p);
    }
    assert EvalConj(Single(other), env, none) == o;
    assert EvalUnit(Paren(orPart), env, none) == Or3(Not3(p), o);
    var andPart := AndThen(Single(core), Paren(orPart));
    assert EvalConj(Single(core), env, none) == c;
    assert EvalConj(andPart, env, none) == And3(c, Or3(Not3(p), o));
    assert EvalDisj(One(andPart), env, none) == And3(c, Or3(Not3(p), o));
    assert EvalUnit(Paren(One(andPart)), env, none) == And3(c, Or3(Not3(p), o));
    var both := AndThen(Single(present), other);
    assert EvalConj(Single(present), env, none) == p;
    assert EvalConj(both, env, none) == And3(p, o);
    assert EvalDisj(One(both), env, none) == And3(p, o);
    assert EvalUnit(Paren(One(both)), env, none) == And3(p, o);
    assert EvalConj(Single(Paren(One(both))), env, none) == And3(p, o);
    assert EvalDisj(One(Single(core)), env, none) == c;
    var either := OrThen(One(Single(core)), Single(Paren(One(both))));
    assert EvalDisj(either, env, none) == Or3(c, And3(p, o));
    assert EvalUnit(Paren(either), env, none) == Or3(c, And3(p, o));
  }

  lemma TestMeans(values: Values, attr: Attr, op: Op, value: string, n: nat, env: Env)
    requires AcceptsTest(values, attr, op, value) && Placed(attr)
    requires KeepsSpecials(env.db.lower) && Binds(env, n, EmitTest(values, attr, op, value, n).1)
    ensures EvalConj(EmitTest(values, attr, op, value, n).0, env, NoElem())
         == Meaning(values, env.db, Test(attr, op, value), env.row)
  {
    var args := EmitTest(values, attr, op, value, n).1;
    if args != [] {
      assert env.bind(n + 0) == args[0];
    }
    match attr
    case Plain(e, fold) => PlainMeans(e, op, fold, n, value, env);
    case Boolean(e) =>
      assert Term(e, env, NoElem()) == Stored(env.row, e);
      BooleanTestMeans(e, op, n, values.flag(value).value, env, NoElem());
    case Time(e) => PlainMeans(e, op, false, n, values.time(value).value, env);
    case Reference(e, byId) =>
      if IsEquality(op) && values.id(value).Some? {
        PlainMeans(byId, op, true, n, values.id(value).value, env);
      } else {
        PlainMeans(e, op, false, n, value, env);
      }
    case Collection(column) => PlainMeans(Column(column), op, false, n, value, env);
    case Field(column, key, flag) =>
      var c := Clause(key, flag, Some(op), value);
      forall x: Elem
        ensures EvalConj(Single(ElemTest(c, n)), env, x) == T <==> ElemHolds(values, env.db, c, x)
      {
        ElemTestMeans(values, c, n, env, x);
      }
      SomeElementMeans(column, Single(ElemTest(c, n)), env, NoElem(), (x: Elem) => ElemHolds(values, env.db, c, x));
    case Member(relation, e, isRef, _) =>
      var v := Referred(values, isRef, op, value);
      forall x: Elem
        ensures EvalUnit(ColumnTest(e, op, true, n), env, x) == T <==> ColumnMatches(env.db, op, true, Within(e, x), v)
      {
        assert Term(e, env, x) == Within(e, x);
        ColumnTestMeans(e, op, true, n, v, env, x);
      }
      SomeRowMeans(relation, Some(ColumnTest(e, op, true, n)), env, NoElem(),
                   (x: Elem) => ColumnMatches(env.db, op, true, Within(e, x), v));
    case Schemas(_, _, _) => SchemasMeans(values, attr, op, value, n, env);
    case OneOf(_, _) =>
      assert EvalUnit(Cond(False), env, NoElem()) == F;
    case Foreign(_, _) =>
      assert EvalUnit(Cond(False), env, NoElem()) == F;
  }

  lemma PathMeans(values: Values, column: string, clause: Clause, sub: Option<Clause>, n: nat, env: Env)
    requires Accepts(values, Path(column, clause, sub, false))
    requires KeepsSpecials(env.db.lower) && Binds(env, n, Emit(values, Path(column, clause, sub, false), n).1)
    ensures EvalConj(Emit(values, Path(column, clause, sub, false), n).0, env, NoElem())
         == Decide(Holds(values, env.db, Path(column, clause, sub, false), env.row))
  {
    var args := ElemArgs(values, clause);
    var all := Emit(values, Path(column, clause, sub, false), n).1;
    assert forall k | 0 <= k < |args| :: all[k] == args[k];
    assert Binds(env, n, args);
    var p := (x: Elem) => ElemHolds(values, env.db, clause, x) && (sub.Some? ==> ElemHolds(values, env.db, sub.value, x));
    var first := Single(ElemTest(clause, n));
    var inner := match sub case None => first case Some(c) => AndThen(first, ElemTest(c, n + |args|));
    if sub.Some? {
      forall k | 0 <= k < |ElemArgs(values, sub.value)|
        ensures env.bind(n + |args| + k) == ElemArgs(values, sub.value)[k]
      {
        assert env.bind(n + (|args| + k)) == all[|args| + k];
      }
    }
    forall x: Elem
      ensures EvalConj(inner, env, x) == T <==> p(x)
    {
      ElemTestMeans(values, clause, n, env, x);
      assert EvalConj(first, env, x) == EvalUnit(ElemTest(clause, n), env, x);
      if sub.Some? {
        ElemTestMeans(values, sub.value, n + |args|, env, x);
      }
    }
    SomeElementMeans(column, inner, env, NoElem(), p);
  }

  /** The SQL of an atom evaluates to the atom's three-valued meaning. */
  lemma AtomMeans(values: Values, atom: Atom, n: nat, env: Env)
    requires Accepts(values, atom) && PlacedAtom(atom)
    requires KeepsSpecials(env.db.lower) && Binds(env, n, Emit(values, atom, n).1)
    ensures EvalConj(Emit(values, atom, n).0, env, NoElem()) == Meaning(values, env.db, atom, env.row)
  {
    match atom
    case Has(attr) => HasMeans(attr, env);
    case Test(attr, op, value) => TestMeans(values, attr, op, value, n, env);
    case Path(column, clause, sub, foreign) =>
      if foreign {
        assert EvalUnit(Cond(False), env, NoElem()) == F;
      } else {
        PathMeans(values, column, clause, sub, n, env);
      }
  }

  // ----- placeholders

  lemma PredParams(p: Pred)
    ensures ParamsOf([Word(p)]) == if p.Compare? || p.Like? then [p.param] else []
  {
    assert [Word(p)][..0] == [];
  }

  /** Each test has exactly the placeholder it was given. */
  lemma ColumnTestParams(e: Expr, op: Op, fold: bool, n: nat)
    ensures ParamsOf(RenderUnit(ColumnTest(e, op, fold, n))) == From(n, 1)
  {
    var u := ColumnTest(e, op, fold, n);
    if op == Ne {
      PairParams(Compare(Unequal, e, fold, n), IsNull(e));
    } else {
      PredParams(u.p);
    }
  }

  lemma RenderOf(p: Pred)
    ensures RenderConj(Of(p)) == [Word(p)]
  {
    assert RenderUnit(Cond(p)) == [Word(p)];
  }

  lemma PairParams(p: Pred, q: Pred)
    ensures ParamsOf(RenderUnit(Paren(OrThen(One(Of(p)), Of(q))))) == ParamsOf([Word(p)]) + ParamsOf([Word(q)])
    ensures ParamsOf(RenderUnit(Paren(One(AndThen(Of(p), Cond(q)))))) == ParamsOf([Word(p)]) + ParamsOf([Word(q)])
    ensures RenderConj(AndThen(Of(p), Cond(q))) == [Word(p)] + [Tok.And] + [Word(q)]
  {
    RenderOf(p);
    RenderOf(q);
    assert RenderDisj(One(Of(p))) == [Word(p)];
    assert RenderDisj(OrThen(One(Of(p)), Of(q))) == [Word(p)] + [Tok.Or] + [Word(q)];
    assert RenderUnit(Cond(q)) == [Word(q)];
    var both := AndThen(Of(p), Cond(q));
    assert RenderDisj(One(both)) == RenderConj(both) == [Word(p)] + [Tok.And] + [Word(q)];
    Enclosed([Word(p)] + [Tok.Or] + [Word(q)]);
    Enclosed([Word(p)] + [Tok.And] + [Word(q)]);
    Joined([Word(p)], Tok.Or, [Word(q)]);
    Joined([Word(p)], Tok.And, [Word(q)]);
  }

  lemma Bare(t: Tok)
    requires !t.Word?
    ensures ParamsOf([t]) == []
  {
    assert [t][..0] == [];
  }

  lemma Enclosed(toks: seq<Tok>)
    ensures ParamsOf([LParen] + toks + [RParen]) == ParamsOf(toks)
  {
    Bare(LParen);
    Bare(RParen);
    ParamsConcat([LParen] + toks, [RParen]);
    ParamsConcat([LParen], toks);
  }

  lemma Joined(a: seq<Tok>, t: Tok, b: seq<Tok>)
    requires !t.Word?
    ensures ParamsOf(a + [t] + b) == ParamsOf(a) + ParamsOf(b)
  {
    Bare(t);
    ParamsConcat(a + [t], b);
    ParamsConcat(a, [t]);
  }

  lemma EitherParams(p: Pred, q: Pred)
    ensures ParamsOf(RenderUnit(Paren(OrThen(One(Of(p)), Of(q)))))
         == (if p.Compare? || p.Like? then [p.param] else []) + (if q.Compare? || q.Like? then [q.param] else [])
  {
    PairParams(p, q);
    PredParams(p);
    PredParams(q);
  }

  lemma ElemTestParams(values: Values, c: Clause, n: nat)
    requires AcceptsClause(values, c)
    ensures ParamsOf(RenderUnit(ElemTest(c, n))) == From(n, |ElemArgs(values, c)|)
  {
    var e, u := Item(c.key), ElemTest(c, n);
    if u.Cond? {
      PredParams(u.p);
    } else if c.op.None? {
      PairParams(NotNull(e), NotBlank(e));
      PredParams(NotNull(e));
      PredParams(NotBlank(e));
    } else if c.flag {
      EitherParams(Compare(Unequal, e, false, n), IsNull(e));
    } else {
      EitherParams(IsNull(e), Compare(Unequal, e, true, n));
    }
  }

  /** One more unit in a conjunction, and a conjunction in parentheses. */
  lemma LongerParams(c: Conj, u: Unit)
    ensures ParamsOf(RenderConj(AndThen(c, u))) == ParamsOf(RenderConj(c)) + ParamsOf(RenderUnit(u))
    ensures ParamsOf(RenderConj(Single(Paren(One(c))))) == ParamsOf(RenderConj(c))
  {
    assert RenderConj(AndThen(c, u)) == RenderConj(c) + [Tok.And] + RenderUnit(u);
    Joined(RenderConj(c), Tok.And, RenderUnit(u));
    assert RenderDisj(One(c)) == RenderConj(c);
    assert RenderConj(Single(Paren(One(c)))) == RenderUnit(Paren(One(c))) == [LParen] + RenderConj(c) + [RParen];
    Enclosed(RenderConj(c));
  }

  lemma PlainPredParams(p: Pred)
    requires !p.Compare? && !p.Like?
    ensures ParamsOf(RenderUnit(Cond(p))) == [] && ParamsOf(RenderConj(Of(p))) == []
  {
    RenderOf(p);
    PredParams(p);
  }

  lemma SomeElementParams(column: string, inner: Conj)
    ensures ParamsOf(RenderConj(SomeElement(column, inner))) == ParamsOf(RenderConj(inner))
  {
    var a, b, c := JsonNotNull(column), JsonIsArray(column), JsonNotEmpty(column);
    var ab := AndThen(Of(a), Cond(b));
    var abc, some := AndThen(ab, Cond(c)), Exists(Items(column), One(inner));
    PlainPredParams(a);
    PlainPredParams(b);
    PlainPredParams(c);
    LongerParams(Of(a), Cond(b));
    LongerParams(ab, Cond(c));
    LongerParams(abc, some);
    ExistsParams(Items(column), One(inner));
    assert RenderDisj(One(inner)) == RenderConj(inner);
    LongerParams(AndThen(abc, some), some);
  }

  lemma ExistsParams(source: Source, d: Disj)
    ensures ParamsOf(RenderUnit(Exists(source, d))) == ParamsOf(RenderDisj(d))
  {
    assert RenderUnit(Exists(source, d)) == [ExistsWord(source)] + ([LParen] + RenderDisj(d) + [RParen]);
    Bare(ExistsWord(source));
    ParamsConcat([ExistsWord(source)], [LParen] + RenderDisj(d) + [RParen]);
    Enclosed(RenderDisj(d));
  }

  lemma SomeRowParams(relation: string, extra: Option<Unit>)
    ensures ParamsOf(RenderConj(SomeRow(relation, extra)))
         == match extra case None => [] case Some(u) => ParamsOf(RenderUnit(u))
  {
    var inner := match extra case None => Of(True) case Some(u) => AndThen(Of(True), u);
    ExistsParams(Source.Related(relation), One(inner));
    assert RenderDisj(One(inner)) == RenderConj(inner);
    RenderOf(True);
    PredParams(True);
    if extra.Some? {
      Joined([Word(True)], Tok.And, RenderUnit(extra.value));
    }
  }

  lemma {:induction false} AnyPresentParams(columns: seq<Expr>)
    requires columns != []
    ensures ParamsOf(RenderDisj(AnyPresent(columns))) == []
  {
    var last := columns[|columns| - 1];
    RenderOf(NotNull(last));
    PredParams(NotNull(last));
    if |columns| == 1 {
      assert RenderDisj(One(Of(NotNull(last)))) == [Word(NotNull(last))];
    } else {
      AnyPresentParams(columns[..|columns| - 1]);
      Joined(RenderDisj(AnyPresent(columns[..|columns| - 1])), Tok.Or, [Word(NotNull(last))]);
    }
  }

  lemma ParenParams(d: Disj)
    ensures ParamsOf(RenderUnit(Paren(d))) == ParamsOf(RenderDisj(d))
  {
    Enclosed(RenderDisj(d));
  }

  lemma AndParams(a: Unit, b: Unit)
    ensures ParamsOf(RenderUnit(Paren(One(AndThen(Single(a), b))))) == ParamsOf(RenderUnit(a)) + ParamsOf(RenderUnit(b))
  {
    var both := AndThen(Single(a), b);
    Joined(RenderUnit(a), Tok.And, RenderUnit(b));
    assert RenderConj(Single(a)) == RenderUnit(a);
    assert RenderConj(both) == RenderUnit(a) + [Tok.And] + RenderUnit(b);
    assert RenderDisj(One(both)) == RenderConj(both);
    ParenParams(One(both));
  }

  lemma OrParams(a: Unit, b: Unit)
    ensures ParamsOf(RenderUnit(Paren(OrThen(One(Single(a)), Single(b))))) == ParamsOf(RenderUnit(a)) + ParamsOf(RenderUnit(b))
  {
    var either := OrThen(One(Single(a)), Single(b));
    Joined(RenderUnit(a), Tok.Or, RenderUnit(b));
    assert RenderConj(Single(a)) == RenderUnit(a) && RenderConj(Single(b)) == RenderUnit(b);
    assert RenderDisj(One(Single(a))) == RenderUnit(a);
    assert RenderDisj(either) == RenderUnit(a) + [Tok.Or] + RenderUnit(b);
    ParenParams(either);
  }

  lemma NegParams(u: Unit)
    ensures ParamsOf(RenderUnit(Neg(u))) == ParamsOf(RenderUnit(u))
  {
    assert RenderUnit(Neg(u)) == [Tok.Not] + RenderUnit(u);
    Bare(Tok.Not);
    ParamsConcat([Tok.Not], RenderUnit(u));
  }

  lemma SchemasParams(core: Unit, other: Unit, columns: seq<Expr>, op: Op)
    requires columns != []
    ensures ParamsOf(RenderUnit(SchemasTest(core, other, columns, op))) == ParamsOf(RenderUnit(core)) + ParamsOf(RenderUnit(other))
  {
    var present := Paren(AnyPresent(columns));
    AnyPresentParams(columns);
    ParenParams(AnyPresent(columns));
    NegParams(present);
    OrParams(Neg(present), other);
    var missingOr, presentAnd := OrThen(One(Single(Neg(present))), Single(other)), AndThen(Single(present), other);
    AndParams(core, Paren(missingOr));
    AndParams(present, other);
    OrParams(core, Paren(One(presentAnd)));
  }

  lemma HasParams(attr: Attr)
    requires attr != Unknown && (attr.OneOf? ==> attr.columns != [])
    ensures ParamsOf(RenderConj(EmitHas(attr))) == []
  {
    match attr
    case Plain(e, _) => PresentParams(NotNull(e));
    case Boolean(e) => PresentParams(NotNull(e));
    case Time(e) => PresentParams(NotNull(e));
    case Reference(e, _) => PresentParams(NotNull(e));
    case Collection(column) =>
      BothPresentParams(JsonNotNull(column), JsonNotEmpty(column));
    case Field(column, key, _) =>
      SomeElementParams(column, AndThen(Of(NotNull(Item(key))), Cond(NotBlank(Item(key)))));
      BothPresentParams(NotNull(Item(key)), NotBlank(Item(key)));
    case Member(relation, e, _, mayLack) =>
      SomeRowParams(relation, if mayLack then Some(Cond(NotNull(e))) else None);
      PresentParams(NotNull(e));
    case Schemas(_, _, _) => PresentParams(True);
    case OneOf(columns, _) =>
      PresentParams(NotNull(columns[0]));
      AnyOfParams(columns);
    case Foreign(_, _) => PresentParams(False);
  }

  lemma BothPresentParams(p: Pred, q: Pred)
    requires !p.Compare? && !p.Like? && !q.Compare? && !q.Like?
    ensures ParamsOf(RenderConj(AndThen(Of(p), Cond(q)))) == []
  {
    PairParams(p, q);
    PredParams(p);
    PredParams(q);
    Joined([Word(p)], Tok.And, [Word(q)]);
  }

  lemma AnyOfParams(columns: seq<Expr>)
    requires columns != []
    ensures ParamsOf(RenderConj(Single(Paren(AnyPresent(columns))))) == []
  {
    AnyPresentParams(columns);
    ParenParams(AnyPresent(columns));
    assert RenderConj(Single(Paren(AnyPresent(columns)))) == RenderUnit(Paren(AnyPresent(columns)));
  }

  lemma PresentParams(p: Pred)
    requires !p.Compare? && !p.Like?
    ensures ParamsOf(RenderConj(Of(p))) == [] && ParamsOf(RenderUnit(Cond(p))) == []
  {
    RenderOf(p);
    PredParams(p);
  }

  lemma TestParams(values: Values, attr: Attr, op: Op, value: string, n: nat)
    requires AcceptsTest(values, attr, op, value)
    ensures ParamsOf(RenderConj(EmitTest(values, attr, op, value, n).0)) == From(n, |EmitTest(values, attr, op, value, n).1|)
  {
    match attr
    case Plain(e, fold) => ColumnTestParams(e, op, fold, n);
    case Boolean(e) => ColumnTestParams(e, op, false, n);
    case Time(e) => ColumnTestParams(e, op, false, n);
    case Reference(e, byId) =>
      ColumnTestParams(e, op, false, n);
      ColumnTestParams(byId, op, true, n);
    case Collection(column) => ColumnTestParams(Column(column), op, false, n);
    case Field(column, key, flag) =>
      var c := Clause(key, flag, Some(op), value);
      ElemTestParams(values, c, n);
      SomeElementParams(column, Single(ElemTest(c, n)));
      assert RenderConj(Single(ElemTest(c, n))) == RenderUnit(ElemTest(c, n));
    case Member(relation, e, _, _) =>
      ColumnTestParams(e, op, true, n);
      SomeRowParams(relation, Some(ColumnTest(e, op, true, n)));
    case Schemas(base, extension, columns) =>
      var core, other := ColumnTest(Literal(base), op, false, n), ColumnTest(Literal(extension), op, false, n + 1);
      ColumnTestParams(Literal(base), op, false, n);
      ColumnTestParams(Literal(extension), op, false, n + 1);
      if columns != [] {
        SchemasParams(core, other, columns, op);
      }
    case OneOf(_, _) => PresentParams(False);
    case Foreign(_, _) => PresentParams(False);
  }

  lemma OneTestParams(values: Values, c: Clause, n: nat)
    requires AcceptsClause(values, c)
    ensures ParamsOf(RenderConj(Single(ElemTest(c, n)))) == From(n, |ElemArgs(values, c)|)
  {
    ElemTestParams(values, c, n);
    assert RenderConj(Single(ElemTest(c, n))) == RenderUnit(ElemTest(c, n));
  }

  lemma TwoTestsParams(values: Values, a: Clause, b: Clause, n: nat)
    requires AcceptsClause(values, a) && AcceptsClause(values, b)
    ensures var m := n + |ElemArgs(values, a)|;
            ParamsOf(RenderConj(AndThen(Single(ElemTest(a, n)), ElemTest(b, m)))) == From(n, |ElemArgs(values, a)| + |ElemArgs(values, b)|)
  {
    var m := n + |ElemArgs(values, a)|;
    OneTestParams(values, a, n);
    ElemTestParams(values, b, m);
    LongerParams(Single(ElemTest(a, n)), ElemTest(b, m));
    FromConcat(n, |ElemArgs(values, a)|, |ElemArgs(values, b)|);
  }

  lemma PathParams(values: Values, column: string, clause: Clause, sub: Option<Clause>, n: nat)
    requires AcceptsClause(values, clause) && (sub.Some? ==> AcceptsClause(values, sub.value))
    ensures var atom := Path(column, clause, sub, false);
            ParamsOf(RenderConj(Emit(values, atom, n).0)) == From(n, |Emit(values, atom, n).1|)
  {
    var first, m := Single(ElemTest(clause, n)), n + |ElemArgs(values, clause)|;
    match sub
    case None =>
      OneTestParams(values, clause, n);
      SomeElementParams(column, first);
    case Some(c) =>
      TwoTestsParams(values, clause, c, n);
      SomeElementParams(column, AndThen(first, ElemTest(c, m)));
  }

  /** An atom's placeholders, left to right, are n, n + 1, and so on, one for each argument. */
  lemma AtomParams(values: Values, atom: Atom, n: nat)
    requires Accepts(values, atom)
    ensures ParamsOf(RenderConj(Emit(values, atom, n).0)) == From(n, |Emit(values, atom, n).1|)
  {
    match atom
    case Has(attr) => HasParams(attr);
    case Test(attr, op, value) => TestParams(values, attr, op, value, n);
    case Path(column, clause, sub, foreign) =>
      if foreign {
        PresentParams(False);
      } else {
        PathParams(values, column, clause, sub, n);
      }
  }
}
