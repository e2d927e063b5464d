/**
 The filter parser as an object that walks the tokens and hands out placeholders. Every
 method is proved to write the SQL of the tree that the grammar reads at its position.
 */
module FilterParser {
  import opened Text
  import opened LikePattern
  import opened Sql
  import opened FilterAtoms
  import opened FilterSyntax
  import opened FilterTrees
  import opened FilterCompile

  /** An error, or SQL with its arguments. */
  datatype Result = Bad | Good(sql: seq<Tok>, args: seq<Value>)

  /** The SQL and arguments of a tree whose first placeholder is n. */
  function Written(write: Writer, f: Filter, n: nat): Result {
    var (c, args) := Compile(write, f, n);
    Good(RenderConj(c), args)
  }

  class Parser {
    const lex: Lexicon
    const write: Writer
    const toks: seq<Token>
    var pos: nat
    var paramIdx: nat

    constructor (lex: Lexicon, write: Writer, toks: seq<Token>, startParam: nat)
      ensures this.lex == lex && this.write == write && this.toks == toks && pos == 0 && paramIdx == startParam
    {
      this.lex, this.write, this.toks, pos, paramIdx := lex, write, toks, 0, startParam;
    }

    /** The result and the new position are those of what was read, placeholders from n on. */
    ghost predicate Did(r: Result, reading: Reading, n: nat)
      reads this
    {
      match reading
      case None => r == Bad
      case Some((f, rest)) =>
        && r == Written(write, f, n)
        && pos <= |toks| && toks[pos..] == rest
        && paramIdx == n + |r.args|
    }

    method ParseOr() returns (r: Result)
      requires pos <= |toks|
      modifies `pos, `paramIdx
      ensures Did(r, ReadOr(lex, old(toks[pos..])), old(paramIdx))
      decreases |toks| - pos, 5
    {
      ghost var start, n := toks[pos..], paramIdx;
      r := ParseAnd();
      if r.Bad? {
        return;
      }
      ghost var f := ReadAnd(lex, start).value.0;
      while pos < |toks| && IsKeyword(lex, toks[pos], KwOr)
        invariant old(pos) < pos <= |toks|
        invariant r == Written(write, f, n) && paramIdx == n + |r.args|
        invariant ReadOr(lex, start) == ReadOrTail(lex, f, toks[pos..])
        decreases |toks| - pos
      {
        r, f := JoinOr(r, f, n);
        if r.Bad? {
          return;
        }
      }
    }

    /** Consumes "or" and its right operand, and puts both sides in parentheses. */
    method JoinOr(left: Result, ghost f: Filter, ghost n: nat) returns (r: Result, ghost longer: Filter)
      requires pos < |toks| && IsKeyword(lex, toks[pos], KwOr)
      requires left == Written(write, f, n) && paramIdx == n + |left.args|
      modifies `pos, `paramIdx
      ensures r.Bad? ==> ReadOrTail(lex, f, old(toks[pos..])) == None
      ensures r.Good? ==>
                && old(pos) < pos <= |toks|
                && r == Written(write, longer, n) && paramIdx == n + |r.args|
                && ReadOrTail(lex, f, old(toks[pos..])) == ReadOrTail(lex, longer, toks[pos..])
      decreases |toks| - pos, 4
    {
      ghost var here := toks[pos..];
      pos := pos + 1;
      assert here[1..] == toks[pos..];
      var right := ParseAnd();
      if right.Bad? {
        return Bad, f;
      }
      ghost var g := ReadAnd(lex, here[1..]).value.0;
      longer := FilterTrees.Or(f, here[0].text, g);
      OrIsWritten(write, f, here[0].text, g, n);
      r := Good([LParen] + left.sql + [Tok.Or] + right.sql + [RParen], left.args + right.args);
    }

    method ParseAnd() returns (r: Result)
      requires pos <= |toks|
      modifies `pos, `paramIdx
      ensures Did(r, ReadAnd(lex, old(toks[pos..])), old(paramIdx))
      decreases |toks| - pos, 3
    {
      ghost var start, n := toks[pos..], paramIdx;
      r := ParseNot();
      if r.Bad? {
        return;
      }
      ghost var f := ReadNot(lex, start).value.0;
      while pos < |toks| && IsKeyword(lex, toks[pos], KwAnd)
        invariant old(pos) < pos <= |toks|
        invariant r == Written(write, f, n) && paramIdx == n + |r.args|
        invariant ReadAnd(lex, start) == ReadAndTail(lex, f, toks[pos..])
        decreases |toks| - pos
      {
        r, f := JoinAnd(r, f, n);
        if r.Bad? {
          return;
        }
      }
    }

    /** Consumes "and" and its right operand, and puts both sides in parentheses. */
    method JoinAnd(left: Result, ghost f: Filter, ghost n: nat) returns (r: Result, ghost longer: Filter)
      requires pos < |toks| && IsKeyword(lex, toks[pos], KwAnd)
      requires left == Written(write, f, n) && paramIdx == n + |left.args|
      modifies `pos, `paramIdx
      ensures r.Bad? ==> ReadAndTail(lex, f, old(toks[pos..])) == None
      ensures r.Good? ==>
                && old(pos) < pos <= |toks|
                && r == Written(write, longer, n) && paramIdx == n + |r.args|
                && ReadAndTail(lex, f, old(toks[pos..])) == ReadAndTail(lex, longer, toks[pos..])
      decreases |toks| - pos, 2
    {
      ghost var here := toks[pos..];
      pos := pos + 1;
      assert here[1..] == toks[pos..];
      var right := ParseNot();
      if right.Bad? {
        return Bad, f;
      }
      ghost var g := ReadNot(lex, here[1..]).value.0;
      longer := FilterTrees.And(f, here[0].text, g);
      AndIsWritten(write, f, here[0].text, g, n);
      r := Good([LParen] + left.sql + [Tok.And] + right.sql + [RParen], left.args + right.args);
    }

    method ParseNot() returns (r: Result)
      requires pos <= |toks|
      modifies `pos, `paramIdx
      ensures Did(r, ReadNot(lex, old(toks[pos..])), old(paramIdx))
      decreases |toks| - pos, 1
    {
      ghost var start, n := toks[pos..], paramIdx;
      if pos < |toks| && IsKeyword(lex, toks[pos], KwNot) {
        pos := pos + 1;
        if pos < |toks| && toks[pos] == Open {
          pos := pos + 1;
          assert start[2..] == toks[pos..];
          r := ParseOr();
          if r.Bad? {
            return;
          }
          if pos == |toks| || toks[pos] != Close {
            return Bad;
          }
          pos := pos + 1;
          NotIsWritten(write, ReadOr(lex, start[2..]).value.0, start[0].text, n);
        } else {
          assert start[1..] == toks[pos..];
          r := ParseAtom();
          if r.Bad? {
            return;
          }
          NotIsWritten(write, ReadOperand(lex, start[1..]).value.0, start[0].text, n);
        }
        r := Good([Tok.Not, LParen] + r.sql + [RParen], r.args);
      } else {
        r := ParseAtom();
      }
    }

    method ParseAtom() returns (r: Result)
      requires pos <= |toks|
      modifies `pos, `paramIdx
      ensures Did(r, ReadOperand(lex, old(toks[pos..])), old(paramIdx))
      decreases |toks| - pos, 0
    {
      ghost var start := toks[pos..];
      if pos == |toks| {
        return Bad;
      }
      if toks[pos] == Open {
        pos := pos + 1;
        assert start[1..] == toks[pos..];
        r := ParseOr();
        if r.Bad? {
          return;
        }
        if pos == |toks| || toks[pos] != Close {
          return Bad;
        }
        pos := pos + 1;
      } else {
        var atom := ParseCondition();
        if atom.None? {
          return Bad;
        }
        ghost var n, used := paramIdx, ReadAtom(lex, start).value.1;
        r := Build(atom.value);
        assert start[used..] == toks[pos..];
        assert Written(write, Leaf(start[..used], atom.value), n) == r;
      }
    }

    /** The condition at the current position. */
    method ParseCondition() returns (atom: Option<Atom>)
      requires pos < |toks|
      modifies `pos
      ensures pos <= |toks|
      ensures match ReadAtom(lex, old(toks[pos..]))
              case None => atom == None
              case Some((a, used)) => atom == Some(a) && pos == old(pos) + used
    {
      ghost var start := toks[pos..];
      if !toks[pos].Bare? {
        return None;
      }
      if lex.open(toks[pos].text).Some? {
        atom := ParseValuePath();
        return;
      }
      var attr := lex.attr(toks[pos].text);
      pos := pos + 1;
      if pos == |toks| || !toks[pos].Bare? {
        return None;
      }
      assert start[1] == toks[pos];
      var keyword := lex.keyword(toks[pos].text);
      pos := pos + 1;
      if keyword == KwPr {
        return if Accepts(lex.values, Has(attr)) then Some(Has(attr)) else None;
      }
      if pos == |toks| || !keyword.KwOp? {
        return None;
      }
      assert start[2] == toks[pos];
      var test := Test(attr, keyword.op, TextOf(toks[pos]));
      pos := pos + 1;
      return if Accepts(lex.values, test) then Some(test) else None;
    }

    /** A value path: the words up to the closing bracket, the sub-attribute, the comparison. */
    method ParseValuePath() returns (atom: Option<Atom>)
      requires pos < |toks| && toks[pos].Bare? && lex.open(toks[pos].text).Some?
      modifies `pos
      ensures pos <= |toks|
      ensures match ReadPath(lex, old(toks[pos..]))
              case None => atom == None
              case Some((a, used)) => atom == Some(a) && pos == old(pos) + used
    {
      ghost var start := toks[pos..];
      var (name, first) := lex.open(toks[pos].text).value;
      var info := lex.collection(name);
      if info.None? {
        return None;
      }
      var gathered := GatherWords(first);
      if gathered.None? {
        return None;
      }
      var (inner, sub) := gathered.value;
      if sub == "" && pos < |toks| && toks[pos].Bare? && lex.dot(toks[pos].text).Some? {
        assert start[pos - old(pos)] == toks[pos];
        sub := lex.dot(toks[pos].text).value;
        pos := pos + 1;
      } else {
        assert pos < |toks| ==> start[pos - old(pos)] == toks[pos];
      }
      if !SingleClause(lex, inner) {
        return None;
      }
      var clause := InnerClause(lex, info.value, inner);
      if clause.None? {
        return None;
      }
      var outer := ParseOuter(start);
      if outer.None? {
        return None;
      }
      var (op, value) := outer.value;
      if sub == "" {
        return Some(Path(info.value.column, clause.value, None, info.value.foreign));
      }
      if info.value.field(sub).None? {
        return None;
      }
      var (key, flag) := info.value.field(sub).value;
      var c := Clause(key, flag, op, value);
      if !AcceptsClause(lex.values, c) {
        return None;
      }
      return Some(Path(info.value.column, clause.value, Some(c), info.value.foreign));
    }

    /** The words between the brackets and the sub-attribute stuck to the closing one. */
    method GatherWords(first: string) returns (r: Option<(seq<Inner>, string)>)
      requires pos < |toks| && toks[pos].Bare? && lex.open(toks[pos].text).Some?
      requires first == lex.open(toks[pos].text).value.1
      modifies `pos
      ensures pos <= |toks|
      ensures match Gather(lex, old(toks[pos..]))
              case None => r == None
              case Some((inner, sub, used)) => r == Some((inner, sub)) && pos == old(pos) + used
    {
      ghost var start := toks[pos..];
      pos := pos + 1;
      match lex.close(first)
      case Some((before, after)) =>
        return Some((Add([], before), SubOf(lex, after)));
      case None =>
        var inner := Add([], first);
        while true
          invariant old(pos) < pos <= |toks|
          invariant Gather(lex, start) == GatherMore(lex, start, pos - old(pos), inner)
          decreases |toks| - pos
        {
          if pos == |toks| {
            return None;
          }
          var t := toks[pos];
          assert start[pos - old(pos)] == t;
          pos := pos + 1;
          if t.Quoted? {
            inner := inner + [Inner(t.text, true)];
          } else {
            match lex.close(TextOf(t))
            case Some((before, after)) =>
              return Some((Add(inner, before), SubOf(lex, after)));
            case None =>
              inner := inner + [Inner(TextOf(t), false)];
          }
        }
    }

    /** What is compared after the brackets. */
    method ParseOuter(ghost start: seq<Token>) returns (r: Option<(Option<Op>, string)>)
      requires pos <= |toks| && |start| <= |toks| && start == toks[|toks| - |start|..] && |toks| - |start| <= pos
      modifies `pos
      ensures old(pos) <= pos <= |toks|
      ensures match Outer(lex, start, old(pos) - (|toks| - |start|))
              case None => r == None
              case Some((op, value, used)) => r == Some((op, value)) && pos == |toks| - |start| + used
    {
      if pos == |toks| {
        return Some((None, ""));
      }
      assert start[pos - (|toks| - |start|)] == toks[pos];
      if !toks[pos].Bare? {
        return Some((None, ""));
      }
      match lex.keyword(toks[pos].text)
      case KwPr =>
        pos := pos + 1;
        return Some((None, ""));
      case KwOp(op) =>
        if pos + 1 == |toks| {
          return None;
        }
        assert start[pos + 1 - (|toks| - |start|)] == toks[pos + 1];
        var value := TextOf(toks[pos + 1]);
        pos := pos + 2;
        return Some((Some(op), value));
      case KwNone =>
        return None;
      case _ =>
        return Some((None, ""));
    }

    /** Writes a condition, taking as many placeholders as it has arguments. */
    method Build(atom: Atom) returns (r: Result)
      modifies `paramIdx
      ensures r == Good(RenderConj(write(atom, old(paramIdx)).0), write(atom, old(paramIdx)).1)
      ensures paramIdx == old(paramIdx) + |r.args|
    {
      var (c, args) := write(atom, paramIdx);
      paramIdx := paramIdx + |args|;
      r := Good(RenderConj(c), args);
    }
  }

  lemma OrIsWritten(write: Writer, f: Filter, word: string, g: Filter, n: nat)
    ensures var l := Written(write, f, n);
            var r := Written(write, g, n + |l.args|);
            Written(write, FilterTrees.Or(f, word, g), n) == Good([LParen] + l.sql + [Tok.Or] + r.sql + [RParen], l.args + r.args)
  {
    var (a, left) := Compile(write, f, n);
    EitherRenders(a, Compile(write, g, n + |left|).0);
  }

  lemma AndIsWritten(write: Writer, f: Filter, word: string, g: Filter, n: nat)
    ensures var l := Written(write, f, n);
            var r := Written(write, g, n + |l.args|);
            Written(write, FilterTrees.And(f, word, g), n) == Good([LParen] + l.sql + [Tok.And] + r.sql + [RParen], l.args + r.args)
  {
    var (a, left) := Compile(write, f, n);
    BothRenders(a, Compile(write, g, n + |left|).0);
  }

  lemma NotIsWritten(write: Writer, f: Filter, word: string, n: nat)
    ensures var r := Written(write, f, n);
            Written(write, FilterTrees.Not(word, f), n) == Good([Tok.Not, LParen] + r.sql + [RParen], r.args)
    ensures var r := Written(write, f, n);
            Written(write, BareNot(word, f), n) == Good([Tok.Not, LParen] + r.sql + [RParen], r.args)
  {
    NegatedRenders(Compile(write, f, n).0);
  }

  // ----- a whole filter

  /** Conditions are written as the builders do; the parser writes only accepted ones. */
  function WriterOf(values: Values): Writer {
    (atom: Atom, n: nat) => if Accepts(values, atom) then Emit(values, atom, n) else (Of(False), [])
  }

  /** A whole filter: what is left over makes it invalid. */
  method ParseEntityFilter(lex: Lexicon, toks: seq<Token>, startParam: nat) returns (r: Result)
    ensures match ReadFilter(lex, toks)
            case None => r == Bad
            case Some(f) => r == Written(WriterOf(lex.values), f, startParam)
  {
    var p := new Parser(lex, WriterOf(lex.values), toks, startParam);
    assert toks[0..] == toks;
    r := p.ParseOr();
    if r.Good? && p.pos < |toks| {
      r := Bad;
    }
  }

  // ----- from tokens to rows

  ghost function ValueOf(values: Values, db: Database, row: Row): Atom -> Tri {
    (atom: Atom) => if Accepts(values, atom) then Meaning(values, db, atom, row) else Tri.F
  }

  ghost function HoldsOf(values: Values, db: Database, row: Row): Atom -> bool {
    (atom: Atom) => Accepts(values, atom) && Holds(values, db, atom, row)
  }

  function DecidedOf(values: Values, row: Row): Atom -> bool {
    (atom: Atom) => Accepts(values, atom) ==> Decided(values, atom, row)
  }

  function Usable(values: Values): Atom -> bool {
    (atom: Atom) => Accepts(values, atom) && PlacedAtom(atom)
  }

  lemma WriterIsRight(values: Values, env: Env)
    requires KeepsSpecials(env.db.lower)
    ensures WritesNumbered(WriterOf(values), Usable(values))
    ensures WritesMeaning(WriterOf(values), Usable(values), ValueOf(values, env.db, env.row), env)
  {
    forall atom, n: nat | Usable(values)(atom)
      ensures Numbered(WriterOf(values)(atom, n).0, n, |WriterOf(values)(atom, n).1|)
    {
      AtomParams(values, atom, n);
    }
    forall atom, n: nat | Usable(values)(atom) && Binds(env, n, WriterOf(values)(atom, n).1)
      ensures EvalConj(WriterOf(values)(atom, n).0, env, NoElem()) == ValueOf(values, env.db, env.row)(atom)
    {
      AtomMeans(values, atom, n, env);
    }
  }

  /** The conditions of a tree that is read are accepted, on attributes of the right kind. */
  lemma {:induction false} ReadIsUsable(lex: Lexicon, f: Filter)
    requires Sensible(lex)
    requires Disjunction(lex, f) || Conjunction(lex, f) || Unary(lex, f) || (f.Leaf? && LeafOk(lex, f.toks, f.atom))
    ensures All(Usable(lex.values), f)
  {
    if Disjunction(lex, f) && !f.Or? {
      assert Conjunction(lex, f);
    }
    if Conjunction(lex, f) && !f.And? {
      assert Unary(lex, f);
    }
    match f
    case Leaf(toks, atom) =>
      assert Follows(lex, []);
      assert ReadAtom(lex, toks + []) == Some((atom, |toks|));
    case Group(g) => ReadIsUsable(lex, g);
    case Not(_, g) => ReadIsUsable(lex, g);
    case BareNot(_, leaf) => ReadIsUsable(lex, leaf);
    case And(l, _, r) =>
      ReadIsUsable(lex, l);
      ReadIsUsable(lex, r);
    case Or(l, _, r) =>
      ReadIsUsable(lex, l);
      ReadIsUsable(lex, r);
  }

  /**
   Every filter the parser accepts, started at placeholder 2 and appended to the workspace
   test, has its placeholders numbered from one in the order of the query's arguments and
   selects exactly the workspace's resources for which the three-valued combination of its
   conditions is true.
   */
  lemma AcceptedFilterSelects(lex: Lexicon, toks: seq<Token>, db: Database, workspace: Value, row: Row)
    requires Sensible(lex) && KeepsSpecials(db.lower) && ReadFilter(lex, toks).Some?
    ensures var f := ReadFilter(lex, toks).value;
            var r := Written(WriterOf(lex.values), f, 2);
            var text, args := WhereText(r.sql), [workspace] + r.args;
            && ParamsOf(text) == From(1, |args|)
            && ReadDisj(text).Some? && ReadDisj(text).value.1 == []
            && (EvalDisj(ReadDisj(text).value.0, QueryEnv(row, db, args), NoElem()) == T
                <==> row.columns("workspace_id") == Some(workspace) && Kleene(ValueOf(lex.values, db, row), f) == T)
  {
    var f := ReadFilter(lex, toks).value;
    var write := WriterOf(lex.values);
    AcceptedExactlyIfPrinted(lex, toks, f);
    ReadIsUsable(lex, f);
    WriterIsRight(lex.values, QueryEnv(row, db, [workspace] + Compile(write, f, 2).1));
    QuerySelects(write, Usable(lex.values), ValueOf(lex.values, db, row), f, workspace, row, db);
  }

  /**
   Those are the workspace's resources that satisfy the filter, if every condition under an
   odd number of negations is on an attribute the resource has, so always if there is none.
   */
  lemma AcceptedFilterSelectsSatisfying(lex: Lexicon, toks: seq<Token>, db: Database, row: Row)
    requires ReadFilter(lex, toks).Some?
    ensures var f := ReadFilter(lex, toks).value;
            NotFree(f) || NegatedDecided(DecidedOf(lex.values, row), f, true) ==>
              (Kleene(ValueOf(lex.values, db, row), f) == T <==> Satisfies(HoldsOf(lex.values, db, row), f))
  {
    var f := ReadFilter(lex, toks).value;
    if NotFree(f) {
      NotFreeIsDecided(DecidedOf(lex.values, row), f);
    }
    if NegatedDecided(DecidedOf(lex.values, row), f, true) {
      SelectsSatisfying(ValueOf(lex.values, db, row), HoldsOf(lex.values, db, row), DecidedOf(lex.values, row), f, true);
    }
  }

  /** Negating one accepted condition, with or without parentheses, selects what it should exactly if the resource has its attribute. */
  lemma NegatedFilterSelects(values: Values, db: Database, row: Row, f: FilterTrees.Filter, atom: Atom)
    requires f.BareNot? || f.Not?
    requires var g := if f.Not? then f.f else f.leaf; g.Leaf? && g.atom == atom
    requires Accepts(values, atom)
    ensures (Kleene(ValueOf(values, db, row), f) == T <==> Satisfies(HoldsOf(values, db, row), f)) <==> Decided(values, atom, row)
  {
  }
}
