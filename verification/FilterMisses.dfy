/**
 What "not" does to resources without the attribute it is about: exactly which filters, on
 which classes of resources, select what they should.
 */
module FilterMisses {
  import opened Text
  import opened Sql
  import opened FilterAtoms
  import opened FilterCompile
  import opened FilterParser
  import F = FilterTrees

  // ----- what a condition looks at

  /** A column with the collection stored in it, or the rows of a relation. */
  datatype Slot = Col(name: string) | Rel(name: string)

  function SlotsOf(e: Expr): set<Slot> {
    if e.Column? then {Col(e.name)} else {}
  }

  function SlotsOfAll(es: seq<Expr>): set<Slot> {
    set k | 0 <= k < |es| && es[k].Column? :: Col(es[k].name)
  }

  function AttrSlots(attr: Attr): set<Slot> {
    match attr
    case Plain(e, _) => SlotsOf(e)
    case Boolean(e) => SlotsOf(e)
    case Time(e) => SlotsOf(e)
    case Reference(e, byId) => SlotsOf(e) + SlotsOf(byId)
    case Collection(column) => {Col(column)}
    case Field(column, _, _) => {Col(column)}
    case Member(relation, _, _, _) => {Rel(relation)}
    case Schemas(_, _, columns) => SlotsOfAll(columns)
    case OneOf(columns, _) => SlotsOfAll(columns)
    case Foreign(_, _) => {}
    case Unknown => {}
  }

  function AtomSlots(atom: Atom): set<Slot> {
    match atom
    case Has(attr) => AttrSlots(attr)
    case Test(attr, _, _) => AttrSlots(attr)
    case Path(column, _, _, _) => {Col(column)}
  }

  function Slots(f: Filter): set<Slot> {
    match f
    case Leaf(_, atom) => AtomSlots(atom)
    case Group(g) => Slots(g)
    case Not(_, g) => Slots(g)
    case BareNot(_, leaf) => Slots(leaf)
    case And(l, _, r) => Slots(l) + Slots(r)
    case Or(l, _, r) => Slots(l) + Slots(r)
  }

  /** The conditions are on pairwise different attributes. */
  predicate Separate(f: Filter) {
    match f
    case Leaf(_, _) => true
    case Group(g) => Separate(g)
    case Not(_, g) => Separate(g)
    case BareNot(_, leaf) => Separate(leaf)
    case And(l, _, r) => Separate(l) && Separate(r) && Slots(l) !! Slots(r)
    case Or(l, _, r) => Separate(l) && Separate(r) && Slots(l) !! Slots(r)
  }

  ghost predicate Same(a: Row, b: Row, some: set<Slot>) {
    && (forall name :: Col(name) in some ==> a.columns(name) == b.columns(name) && a.items(name) == b.items(name))
    && (forall name :: Rel(name) in some ==> a.related(name) == b.related(name))
  }

  lemma SameStored(a: Row, b: Row, some: set<Slot>, e: Expr)
    requires Same(a, b, some) && SlotsOf(e) <= some
    ensures Stored(a, e) == Stored(b, e)
  {
    if e.Column? {
      assert Col(e.name) in some;
    }
  }

  lemma SameCarries(a: Row, b: Row, columns: seq<Expr>)
    requires Same(a, b, SlotsOfAll(columns))
    ensures Carries(a, columns) == Carries(b, columns)
  {
    forall k | 0 <= k < |columns|
      ensures Stored(a, columns[k]) == Stored(b, columns[k])
    {
      assert columns[k].Column? ==> Col(columns[k].name) in SlotsOfAll(columns);
    }
  }

  lemma SameElements(a: Row, b: Row, source: Source)
    requires Same(a, b, if source.Items? then {Col(source.column)} else {Rel(source.relation)})
    ensures Elements(a, source) == Elements(b, source)
    ensures forall p: Elem -> bool :: SomeElem(a, source, p) == SomeElem(b, source, p)
  {
    if source.Items? {
      assert Col(source.column) in {Col(source.column)};
    } else {
      assert Rel(source.relation) in {Rel(source.relation)};
    }
  }

  lemma HasIsLocal(attr: Attr, a: Row, b: Row)
    requires Same(a, b, AttrSlots(attr))
    ensures HasHolds(attr, a) == HasHolds(attr, b)
  {
    match attr
    case Plain(e, _) => SameStored(a, b, AttrSlots(attr), e);
    case Boolean(e) => SameStored(a, b, AttrSlots(attr), e);
    case Time(e) => SameStored(a, b, AttrSlots(attr), e);
    case Reference(e, _) => SameStored(a, b, AttrSlots(attr), e);
    case Collection(column) => SameElements(a, b, Items(column));
    case Field(column, _, _) => SameElements(a, b, Items(column));
    case Member(relation, _, _, _) => SameElements(a, b, Source.Related(relation));
    case OneOf(columns, _) => SameCarries(a, b, columns);
    case _ =>
  }

  lemma TestIsLocal(values: Values, db: Database, attr: Attr, op: Op, value: string, a: Row, b: Row)
    requires AcceptsTest(values, attr, op, value) && Same(a, b, AttrSlots(attr))
    ensures TestHolds(values, db, attr, op, value, a) == TestHolds(values, db, attr, op, value, b)
    ensures Decided(values, Test(attr, op, value), a) == Decided(values, Test(attr, op, value), b)
  {
    match attr
    case Plain(e, _) => SameStored(a, b, AttrSlots(attr), e);
    case Boolean(e) => SameStored(a, b, AttrSlots(attr), e);
    case Time(e) => SameStored(a, b, AttrSlots(attr), e);
    case Reference(e, byId) =>
      SameStored(a, b, AttrSlots(attr), e);
      SameStored(a, b, AttrSlots(attr), byId);
    case Collection(column) => SameStored(a, b, AttrSlots(attr), Column(column));
    case Field(column, _, _) => SameElements(a, b, Items(column));
    case Member(relation, _, _, _) => SameElements(a, b, Source.Related(relation));
    case Schemas(_, _, columns) => SameCarries(a, b, columns);
    case _ =>
  }

  lemma AtomIsLocal(values: Values, db: Database, atom: Atom, a: Row, b: Row)
    requires Same(a, b, AtomSlots(atom))
    ensures ValueOf(values, db, a)(atom) == ValueOf(values, db, b)(atom)
    ensures HoldsOf(values, db, a)(atom) == HoldsOf(values, db, b)(atom)
    ensures DecidedOf(values, a)(atom) == DecidedOf(values, b)(atom)
  {
    if Accepts(values, atom) {
      match atom
      case Has(attr) => HasIsLocal(attr, a, b);
      case Test(attr, op, value) => TestIsLocal(values, db, attr, op, value, a, b);
      case Path(column, _, _, _) => SameElements(a, b, Items(column));
    }
  }

  // ----- what SQL and RFC 7644 make of a filter

  /** Yes and No where they agree; unknown to SQL but satisfied, or neither. */
  datatype Verdict = Yes | No | Missed | Passed

  ghost function VerdictOf(values: Values, db: Database, row: Row, f: Filter): Verdict {
    match Kleene(ValueOf(values, db, row), f)
    case T => Yes
    case F => No
    case U => if Satisfies(HoldsOf(values, db, row), f) then Missed else Passed
  }

  /** The filter selects the resource exactly if the resource satisfies it. */
  ghost predicate Right(values: Values, db: Database, row: Row, f: Filter) {
    Kleene(ValueOf(values, db, row), f) == T <==> Satisfies(HoldsOf(values, db, row), f)
  }

  function Opposite(v: Verdict): Verdict {
    match v case Yes => No case No => Yes case Missed => Passed case Passed => Missed
  }

  function Conjoin(a: Verdict, b: Verdict): Verdict {
    if a == No || b == No then No
    else if a == Passed || b == Passed then Passed
    else if a == Missed || b == Missed then Missed
    else Yes
  }

  function Disjoin(a: Verdict, b: Verdict): Verdict {
    Opposite(Conjoin(Opposite(a), Opposite(b)))
  }

  /** The verdict on a conjunction or disjunction from those on its sides. */
  function Joint(f: Filter, a: Verdict, b: Verdict): Verdict
    requires f.And? || f.Or?
  {
    if f.And? then Conjoin(a, b) else Disjoin(a, b)
  }

  lemma YesMeansSatisfied(values: Values, db: Database, row: Row, f: Filter)
    ensures VerdictOf(values, db, row, f) == Yes ==> Satisfies(HoldsOf(values, db, row), f)
    ensures VerdictOf(values, db, row, f) == No ==> !Satisfies(HoldsOf(values, db, row), f)
    ensures Right(values, db, row, f) <==> VerdictOf(values, db, row, f) != Missed
  {
    KnownIsRight(ValueOf(values, db, row), HoldsOf(values, db, row), DecidedOf(values, row), f);
  }

  lemma NotVerdict(values: Values, db: Database, row: Row, f: Filter)
    requires f.Not? || f.BareNot?
    ensures VerdictOf(values, db, row, f) == Opposite(VerdictOf(values, db, row, if f.Not? then f.f else f.leaf))
  {
    YesMeansSatisfied(values, db, row, if f.Not? then f.f else f.leaf);
  }

  lemma BothVerdict(values: Values, db: Database, row: Row, f: Filter)
    requires f.And? || f.Or?
    ensures VerdictOf(values, db, row, f) == Joint(f, VerdictOf(values, db, row, f.l), VerdictOf(values, db, row, f.r))
  {
    YesMeansSatisfied(values, db, row, f.l);
    YesMeansSatisfied(values, db, row, f.r);
  }

  /** The verdict looks at the filter's own attributes only. */
  lemma {:induction false} VerdictIsLocal(values: Values, db: Database, a: Row, b: Row, f: Filter)
    requires Same(a, b, Slots(f))
    ensures VerdictOf(values, db, a, f) == VerdictOf(values, db, b, f)
    decreases f, 1
  {
    match f
    case Leaf(_, atom) => AtomIsLocal(values, db, atom, a, b);
    case Group(g) => VerdictIsLocal(values, db, a, b, g);
    case Not(_, g) =>
      VerdictIsLocal(values, db, a, b, g);
      NotVerdict(values, db, a, f);
      NotVerdict(values, db, b, f);
    case BareNot(_, leaf) =>
      VerdictIsLocal(values, db, a, b, leaf);
      NotVerdict(values, db, a, f);
      NotVerdict(values, db, b, f);
    case And(l, _, r) => BothAreLocal(values, db, a, b, f);
    case Or(l, _, r) => BothAreLocal(values, db, a, b, f);
  }

  lemma {:induction false} BothAreLocal(values: Values, db: Database, a: Row, b: Row, f: Filter)
    requires (f.And? || f.Or?) && Same(a, b, Slots(f))
    ensures VerdictOf(values, db, a, f) == VerdictOf(values, db, b, f)
    decreases f, 0
  {
    VerdictIsLocal(values, db, a, b, f.l);
    VerdictIsLocal(values, db, a, b, f.r);
    BothVerdict(values, db, a, f);
    BothVerdict(values, db, b, f);
  }

  // ----- the verdicts that a class of resources allows

  ghost predicate Occurs(values: Values, db: Database, rows: Row -> bool, f: Filter, v: Verdict) {
    exists row :: rows(row) && VerdictOf(values, db, row, f) == v
  }

  /**
   The verdicts a filter can come to. Two sides on different attributes are looked at
   independently of each other, single conditions and sides that share an attribute by themselves.
   */
  ghost predicate Possible(values: Values, db: Database, rows: Row -> bool, f: Filter, v: Verdict) {
    match f
    case Leaf(_, _) => Occurs(values, db, rows, f, v)
    case Group(g) => Possible(values, db, rows, g, v)
    case Not(_, g) => Possible(values, db, rows, g, Opposite(v))
    case BareNot(_, leaf) => Possible(values, db, rows, leaf, Opposite(v))
    case And(l, _, r) =>
      if Slots(l) !! Slots(r) then
        exists a, b :: Possible(values, db, rows, l, a) && Possible(values, db, rows, r, b) && v == Conjoin(a, b)
      else Occurs(values, db, rows, f, v)
    case Or(l, _, r) =>
      if Slots(l) !! Slots(r) then
        exists a, b :: Possible(values, db, rows, l, a) && Possible(values, db, rows, r, b) && v == Disjoin(a, b)
      else Occurs(values, db, rows, f, v)
  }

  lemma {:induction false} VerdictIsPossible(values: Values, db: Database, rows: Row -> bool, row: Row, f: Filter)
    requires rows(row)
    ensures Possible(values, db, rows, f, VerdictOf(values, db, row, f))
  {
    match f
    case Leaf(_, _) =>
    case Group(g) => VerdictIsPossible(values, db, rows, row, g);
    case Not(_, g) =>
      VerdictIsPossible(values, db, rows, row, g);
      NotVerdict(values, db, row, f);
    case BareNot(_, leaf) =>
      VerdictIsPossible(values, db, rows, row, leaf);
      NotVerdict(values, db, row, f);
    case And(l, _, r) =>
      VerdictIsPossible(values, db, rows, row, l);
      VerdictIsPossible(values, db, rows, row, r);
      BothVerdict(values, db, row, f);
    case Or(l, _, r) =>
      VerdictIsPossible(values, db, rows, row, l);
      VerdictIsPossible(values, db, rows, row, r);
      BothVerdict(values, db, row, f);
  }

  /** The resource with some attributes of one and the others of another. */
  ghost function Mix(a: Row, some: set<Slot>, b: Row): Row {
    Row(name => if Col(name) in some then a.columns(name) else b.columns(name),
        name => if Col(name) in some then a.items(name) else b.items(name),
        name => if Rel(name) in some then a.related(name) else b.related(name))
  }

  /** A class of resources that says nothing of how attributes go together. */
  ghost predicate Mixable(rows: Row -> bool) {
    forall a, b, some | rows(a) && rows(b) :: rows(Mix(a, some, b))
  }

  /** Each possible verdict is that of some resource. */
  lemma {:induction false} PossibleIsReached(values: Values, db: Database, rows: Row -> bool, f: Filter, v: Verdict) returns (row: Row)
    requires Mixable(rows) && Possible(values, db, rows, f, v)
    ensures rows(row) && VerdictOf(values, db, row, f) == v
    decreases f, 1
  {
    match f {
      case Leaf(_, _) => row :| rows(row) && VerdictOf(values, db, row, f) == v;
      case Group(g) => row := PossibleIsReached(values, db, rows, g, v);
      case Not(_, g) =>
        row := PossibleIsReached(values, db, rows, g, Opposite(v));
        NotVerdict(values, db, row, f);
      case BareNot(_, leaf) =>
        row := PossibleIsReached(values, db, rows, leaf, Opposite(v));
        NotVerdict(values, db, row, f);
      case And(l, _, r) =>
        if Slots(l) !! Slots(r) {
          var a, b :| Possible(values, db, rows, l, a) && Possible(values, db, rows, r, b) && v == Conjoin(a, b);
          row := BothAreReached(values, db, rows, f, a, b);
        } else {
          row :| rows(row) && VerdictOf(values, db, row, f) == v;
        }
      case Or(l, _, r) =>
        if Slots(l) !! Slots(r) {
          var a, b :| Possible(values, db, rows, l, a) && Possible(values, db, rows, r, b) && v == Disjoin(a, b);
          row := BothAreReached(values, db, rows, f, a, b);
        } else {
          row :| rows(row) && VerdictOf(values, db, row, f) == v;
        }
    }
  }

  lemma {:induction false} BothAreReached(values: Values, db: Database, rows: Row -> bool, f: Filter, a: Verdict, b: Verdict) returns (row: Row)
    requires Mixable(rows) && (f.And? || f.Or?) && Slots(f.l) !! Slots(f.r)
    requires Possible(values, db, rows, f.l, a) && Possible(values, db, rows, f.r, b)
    ensures rows(row) && VerdictOf(values, db, row, f) == Joint(f, a, b)
    decreases f, 0
  {
    var left := PossibleIsReached(values, db, rows, f.l, a);
    var right := PossibleIsReached(values, db, rows, f.r, b);
    row := Mix(left, Slots(f.l), right);
    VerdictIsLocal(values, db, row, left, f.l);
    VerdictIsLocal(values, db, row, right, f.r);
    BothVerdict(values, db, row, f);
  }

  /** A filter selects what it should from a class of resources exactly if none can possibly be missed. */
  lemma RightExactlyIf(values: Values, db: Database, rows: Row -> bool, f: Filter)
    ensures !Possible(values, db, rows, f, Missed) ==> forall row | rows(row) :: Right(values, db, row, f)
    ensures Mixable(rows) && Possible(values, db, rows, f, Missed) ==> exists row :: rows(row) && !Right(values, db, row, f)
  {
    if !Possible(values, db, rows, f, Missed) {
      forall row | rows(row)
        ensures Right(values, db, row, f)
      {
        VerdictIsPossible(values, db, rows, row, f);
        YesMeansSatisfied(values, db, row, f);
      }
    } else if Mixable(rows) {
      var row := PossibleIsReached(values, db, rows, f, Missed);
      YesMeansSatisfied(values, db, row, f);
    }
  }

  // ----- filters whose conditions are free

  /** Among the resources the condition holds of one with its attribute, and fails of another. */
  ghost predicate Free(values: Values, db: Database, rows: Row -> bool, atom: Atom) {
    && Accepts(values, atom)
    && (exists row :: rows(row) && Decided(values, atom, row) && Holds(values, db, atom, row))
    && (exists row :: rows(row) && Decided(values, atom, row) && !Holds(values, db, atom, row))
  }

  ghost predicate AllFree(values: Values, db: Database, rows: Row -> bool, f: Filter) {
    match f
    case Leaf(_, atom) => Free(values, db, rows, atom)
    case Group(g) => AllFree(values, db, rows, g)
    case Not(_, g) => AllFree(values, db, rows, g)
    case BareNot(_, leaf) => AllFree(values, db, rows, leaf)
    case And(l, _, r) => AllFree(values, db, rows, l) && AllFree(values, db, rows, r)
    case Or(l, _, r) => AllFree(values, db, rows, l) && AllFree(values, db, rows, r)
  }

  /** All these resources have the attribute of the condition. */
  ghost function Everywhere(values: Values, rows: Row -> bool): Atom -> bool {
    (atom: Atom) => forall row | rows(row) :: DecidedOf(values, row)(atom)
  }

  /** Free conditions on different attributes can make a filter true, and false. */
  lemma {:induction false} EitherWay(values: Values, db: Database, rows: Row -> bool, f: Filter)
    requires Separate(f) && AllFree(values, db, rows, f)
    ensures Possible(values, db, rows, f, Yes) && Possible(values, db, rows, f, No)
  {
    match f
    case Leaf(_, atom) => LeafEitherWay(values, db, rows, f);
    case Group(g) => EitherWay(values, db, rows, g);
    case Not(_, g) => EitherWay(values, db, rows, g);
    case BareNot(_, leaf) => EitherWay(values, db, rows, leaf);
    case And(l, _, r) =>
      EitherWay(values, db, rows, l);
      EitherWay(values, db, rows, r);
      assert Conjoin(Yes, Yes) == Yes && Conjoin(No, No) == No;
    case Or(l, _, r) =>
      EitherWay(values, db, rows, l);
      EitherWay(values, db, rows, r);
      assert Disjoin(Yes, Yes) == Yes && Disjoin(No, No) == No;
  }

  lemma LeafEitherWay(values: Values, db: Database, rows: Row -> bool, f: Filter)
    requires f.Leaf? && Free(values, db, rows, f.atom)
    ensures Occurs(values, db, rows, f, Yes) && Occurs(values, db, rows, f, No)
  {
    var yes :| rows(yes) && Decided(values, f.atom, yes) && Holds(values, db, f.atom, yes);
    var no :| rows(no) && Decided(values, f.atom, no) && !Holds(values, db, f.atom, no);
    assert VerdictOf(values, db, yes, f) == Yes;
    assert VerdictOf(values, db, no, f) == No;
  }

  /** A filter that needs an attribute which some resource lacks can miss one. */
  lemma {:induction false} NeededIsMissed(values: Values, db: Database, rows: Row -> bool, f: Filter, positive: bool)
    requires Separate(f) && AllFree(values, db, rows, f)
    requires !NegatedDecided(Everywhere(values, rows), f, positive)
    ensures Possible(values, db, rows, f, if positive then Missed else Passed)
    decreases f, 1
  {
    match f
    case Leaf(_, atom) =>
      var row :| rows(row) && !DecidedOf(values, row)(atom);
      assert VerdictOf(values, db, row, f) == Passed;
    case Group(g) => NeededIsMissed(values, db, rows, g, positive);
    case Not(_, g) => NeededIsMissed(values, db, rows, g, !positive);
    case BareNot(_, leaf) => NeededIsMissed(values, db, rows, leaf, !positive);
    case And(l, _, r) => NeededAmongTwo(values, db, rows, f, positive);
    case Or(l, _, r) => NeededAmongTwo(values, db, rows, f, positive);
  }

  lemma {:induction false} NeededAmongTwo(values: Values, db: Database, rows: Row -> bool, f: Filter, positive: bool)
    requires Separate(f) && AllFree(values, db, rows, f) && (f.And? || f.Or?)
    requires !NegatedDecided(Everywhere(values, rows), f, positive)
    ensures Possible(values, db, rows, f, if positive then Missed else Passed)
    decreases f, 0
  {
    var v, neutral := if positive then Missed else Passed, if f.And? then Yes else No;
    assert v == Joint(f, v, neutral) == Joint(f, neutral, v);
    if !NegatedDecided(Everywhere(values, rows), f.l, positive) {
      NeededIsMissed(values, db, rows, f.l, positive);
      EitherWay(values, db, rows, f.r);
      assert Possible(values, db, rows, f.l, v) && Possible(values, db, rows, f.r, neutral);
    } else {
      NeededIsMissed(values, db, rows, f.r, positive);
      EitherWay(values, db, rows, f.l);
      assert Possible(values, db, rows, f.l, neutral) && Possible(values, db, rows, f.r, v);
    }
  }

  lemma {:induction false} MoreIsDecided(decided: Atom -> bool, more: Atom -> bool, f: Filter, positive: bool)
    requires (forall atom :: decided(atom) ==> more(atom)) && NegatedDecided(decided, f, positive)
    ensures NegatedDecided(more, f, positive)
  {
    match f
    case Leaf(_, _) =>
    case Group(g) => MoreIsDecided(decided, more, g, positive);
    case Not(_, g) => MoreIsDecided(decided, more, g, !positive);
    case BareNot(_, leaf) => MoreIsDecided(decided, more, leaf, !positive);
    case And(l, _, r) =>
      MoreIsDecided(decided, more, l, positive);
      MoreIsDecided(decided, more, r, positive);
    case Or(l, _, r) =>
      MoreIsDecided(decided, more, l, positive);
      MoreIsDecided(decided, more, r, positive);
  }

  /**
   A filter of free conditions on different attributes selects what it should from a class of
   resources exactly if all of them have the attributes of the conditions under an odd number
   of negations. The first half needs none of this.
   */
  lemma FreeRightExactlyIf(values: Values, db: Database, rows: Row -> bool, f: Filter)
    ensures NegatedDecided(Everywhere(values, rows), f, true) ==> forall row | rows(row) :: Right(values, db, row, f)
    ensures Mixable(rows) && Separate(f) && AllFree(values, db, rows, f) && !NegatedDecided(Everywhere(values, rows), f, true) ==>
              exists row :: rows(row) && !Right(values, db, row, f)
  {
    if NegatedDecided(Everywhere(values, rows), f, true) {
      forall row | rows(row)
        ensures Right(values, db, row, f)
      {
        MoreIsDecided(Everywhere(values, rows), DecidedOf(values, row), f, true);
        SelectsSatisfying(ValueOf(values, db, row), HoldsOf(values, db, row), DecidedOf(values, row), f, true);
      }
    } else if Mixable(rows) && Separate(f) && AllFree(values, db, rows, f) {
      NeededIsMissed(values, db, rows, f, true);
      RightExactlyIf(values, db, rows, f);
    }
  }

  // ----- resources that have at least certain attributes

  ghost function AtLeast(has: set<string>): Row -> bool {
    (row: Row) => forall name | name in has :: row.columns(name).Some?
  }

  /** The condition is not on an attribute that may be absent. */
  predicate Given(values: Values, has: set<string>, atom: Atom) {
    match Operand(values, atom)
    case None => true
    case Some(e) => e.Literal? || (e.Column? && e.name in has)
  }

  lemma EverywhereIsGiven(values: Values, has: set<string>, atom: Atom)
    requires Accepts(values, atom)
    ensures Everywhere(values, AtLeast(has))(atom) <==> Given(values, has, atom)
  {
    if !Given(values, has, atom) {
      var e := Operand(values, atom).value;
      var row := Row(name => if Column(name) == e then None else Some(Str("")), _ => None, _ => []);
      assert AtLeast(has)(row) && Stored(row, e).None?;
      assert !DecidedOf(values, row)(atom);
    }
  }

  lemma {:induction false} NegatedGiven(values: Values, has: set<string>, f: Filter, positive: bool)
    requires F.All((atom: Atom) => Accepts(values, atom), f)
    ensures NegatedDecided(Everywhere(values, AtLeast(has)), f, positive)
       <==> NegatedDecided((atom: Atom) => Given(values, has, atom), f, positive)
  {
    match f
    case Leaf(_, atom) => EverywhereIsGiven(values, has, atom);
    case Group(g) => NegatedGiven(values, has, g, positive);
    case Not(_, g) => NegatedGiven(values, has, g, !positive);
    case BareNot(_, leaf) => NegatedGiven(values, has, leaf, !positive);
    case And(l, _, r) =>
      NegatedGiven(values, has, l, positive);
      NegatedGiven(values, has, r, positive);
    case Or(l, _, r) =>
      NegatedGiven(values, has, l, positive);
      NegatedGiven(values, has, r, positive);
  }

  /**
   A filter selects what it should from all resources with at least the given attributes if every
   condition under an odd number of negations is "ne", a test of presence or of a collection, or on
   one of those attributes; and only then if its conditions are free and on different attributes.
   */
  lemma AtLeastRightExactlyIf(values: Values, db: Database, has: set<string>, f: Filter)
    requires F.All((atom: Atom) => Accepts(values, atom), f)
    ensures NegatedDecided((atom: Atom) => Given(values, has, atom), f, true) ==>
              forall row | AtLeast(has)(row) :: Right(values, db, row, f)
    ensures Separate(f) && AllFree(values, db, AtLeast(has), f) && (forall row | AtLeast(has)(row) :: Right(values, db, row, f)) ==>
              NegatedDecided((atom: Atom) => Given(values, has, atom), f, true)
  {
    NegatedGiven(values, has, f, true);
    FreeRightExactlyIf(values, db, AtLeast(has), f);
  }

  /** A resource whose columns are all set, the named one to the given value. */
  function Full(name: string, v: Value): Row {
    Row(c => if c == name then Some(v) else Some(Str("")), _ => None, _ => [])
  }

  /** A stored text that satisfies the comparison, and one that does not. */
  lemma TextEitherWay(db: Database, op: Op, fold: bool, value: string) returns (yes: string, no: string)
    requires IsEquality(op) || (IsPattern(op) && value != "")
    ensures TextHolds(db, op, fold, yes, value) && !TextHolds(db, op, fold, no, value)
  {
    var other := if IsEquality(op) then value + "a" else "";
    yes, no := if op == Ne then other else value, if op == Ne then value else other;
    var folded := Fold(db, fold, value);
    assert |Fold(db, fold, other)| == |other| && |folded| == |value|;
    assert folded[..] == folded && folded[0..] == folded;
  }

  /** Equality with any value, and containment of a text that is not empty, are free whatever attributes are there. */
  lemma ComparisonIsFree(values: Values, db: Database, has: set<string>, name: string, fold: bool, op: Op, value: string)
    requires IsEquality(op) || (IsPattern(op) && value != "")
    ensures Free(values, db, AtLeast(has), Test(Plain(Column(name), fold), op, value))
  {
    var atom := Test(Plain(Column(name), fold), op, value);
    var yes, no := TextEitherWay(db, op, fold && (IsEquality(op) || IsPattern(op)), value);
    var a, b := Full(name, Str(yes)), Full(name, Str(no));
    assert AtLeast(has)(a) && Decided(values, atom, a) && Holds(values, db, atom, a);
    assert AtLeast(has)(b) && Decided(values, atom, b) && !Holds(values, db, atom, b);
  }

  /** A test of presence is free exactly if the attribute may be absent. */
  lemma PresenceIsFree(values: Values, db: Database, has: set<string>, name: string, fold: bool)
    ensures Free(values, db, AtLeast(has), Has(Plain(Column(name), fold))) <==> name !in has
  {
    var atom := Has(Plain(Column(name), fold));
    if name !in has {
      var a := Full(name, Str(""));
      var b := Row(c => if c == name then None else Some(Str("")), _ => None, _ => []);
      assert AtLeast(has)(a) && Decided(values, atom, a) && Holds(values, db, atom, a);
      assert AtLeast(has)(b) && Decided(values, atom, b) && !Holds(values, db, atom, b);
    }
  }

  // ----- resources that have exactly certain attributes

  ghost function Exactly(has: set<string>): Row -> bool {
    (row: Row) => forall name :: row.columns(name).Some? <==> name in has
  }

  lemma ClassesAreMixable(has: set<string>)
    ensures Mixable(AtLeast(has)) && Mixable(Exactly(has))
  {
  }

  /**
   What a single condition on a column can come to then: presence is settled, "ne" holds where the
   column is absent, any other comparison is unknown there, and a free one goes either way elsewhere.
   */
  lemma ConditionVerdicts(values: Values, db: Database, has: set<string>, f: Filter, name: string, fold: bool, v: Verdict)
    requires f.Leaf? && (f.atom.Has? || f.atom.Test?) && f.atom.attr == Plain(Column(name), fold)
    requires f.atom.Test? && name in has ==> Free(values, db, Exactly(has), f.atom)
    ensures Possible(values, db, Exactly(has), f, v) <==>
              if f.atom.Has? then v == (if name in has then Yes else No)
              else if name in has then v == Yes || v == No
              else v == (if f.atom.op == Ne then Yes else Passed)
  {
    var row := Row(c => if c in has then Some(Str("")) else None, _ => None, _ => []);
    assert Exactly(has)(row);
    var w := VerdictOf(values, db, row, f);
    assert Occurs(values, db, Exactly(has), f, w);
    if f.atom.Test? && name in has {
      LeafEitherWay(values, db, Exactly(has), f);
    }
  }

  // ----- guards

  /** The column whose presence a test of presence is about. */
  function Guard(attr: Attr): Option<Expr> {
    match attr
    case Plain(e, _) => Some(e)
    case Boolean(e) => Some(e)
    case Time(e) => Some(e)
    case Reference(e, _) => Some(e)
    case _ => None
  }

  function Behind(values: Values, e: Expr): Atom -> bool {
    (atom: Atom) => Operand(values, atom).None? || Operand(values, atom) == Some(e)
  }

  /**
   A test of presence beside the rest of the filter, as in "title pr and not (title eq ..)", makes
   it right for every resource, if the rest negates no other comparisons than those of that attribute.
   */
  lemma GuardedIsRight(values: Values, db: Database, row: Row, f: Filter, attr: Attr)
    requires f.And? && f.l.Leaf? && f.l.atom == Has(attr) && Guard(attr).Some?
    requires NegatedDecided(Behind(values, Guard(attr).value), f.r, true)
    ensures Right(values, db, row, f)
  {
    if Stored(row, Guard(attr).value).Some? {
      MoreIsDecided(Behind(values, Guard(attr).value), DecidedOf(values, row), f, true);
      SelectsSatisfying(ValueOf(values, db, row), HoldsOf(values, db, row), DecidedOf(values, row), f, true);
    }
  }
}
