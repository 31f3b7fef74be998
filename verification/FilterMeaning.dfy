/**
 What the compiled text means: it is readable exactly when the filter has no
 empty operator object and no empty `$or` member, it then has the filter's own
 three-valued meaning, and its placeholders are the pushed parameters, each
 used once and in order.
 */
module FilterMeaning {
  import opened Prelude
  import opened Sql
  import opened Filter

  /** The parameters pushed by a compilation that started at `n` are still where it put them. */
  predicate Carries(env: Env, n: nat, pushed: seq<Param>) {
    n + |pushed| <= |env.params| && env.params[n..n + |pushed|] == pushed
  }

  lemma CarriesParts(env: Env, n: nat, a: seq<Param>, b: seq<Param>)
    requires Carries(env, n, a + b)
    ensures Carries(env, n, a) && Carries(env, n + |a|, b)
  {
    var s := env.params[n..n + |a + b|];
    assert env.params[n..n + |a|] == s[..|a|];
    assert env.params[n + |a|..n + |a| + |b|] == s[|a|..];
  }

  function Both(a: Option<Tri>, b: Option<Tri>): Option<Tri> {
    if a.None? || b.None? then None else Some(And3(a.value, b.value))
  }

  lemma {:induction false} ConjAppend(env: Env, a: seq<Clause>, b: seq<Clause>)
    ensures EvalConj(env, a + b) == Both(EvalConj(env, a), EvalConj(env, b))
  {
    if a == [] {
      assert a + b == b;
    } else {
      assert (a + b)[1..] == a[1..] + b;
      ConjAppend(env, a[1..], b);
    }
  }

  // ---- One field ----

  lemma {:induction false} OperandMeaning(env: Env, schema: Schema, field: string, x: Operand, n: nat)
    requires CompileOperand(schema, field, x, n).Ok?
    requires Carries(env, n, CompileOperand(schema, field, x, n).value.pushed)
    ensures var r := Eval(env, CompileOperand(schema, field, x, n).value.clauses[0]);
            && (r.Some? <==> ReadableOperand(x))
            && (r.Some? && PlainOperand(x) ==> r.value == DenoteOperand(env.eng, env.row, schema, field, x))
    decreases x, 0
  {
    var col := Column(schema, field).value;
    var c := CompileOperand(schema, field, x, n).value;
    match x
    case Ops(ops) =>
      OpsMeaning(env, schema, field, col, ops, n);
    case Is(v) =>
      assert env.params[n..n + 1][0] == env.params[n];
  }

  lemma {:induction false} OpsMeaning(env: Env, schema: Schema, field: string, col: string, ops: seq<Op>, n: nat)
    requires Column(schema, field) == Ok(col)
    requires CompileOps(schema, field, col, ops, n).Ok?
    requires Carries(env, n, CompileOps(schema, field, col, ops, n).value.pushed)
    ensures var r := EvalConj(env, CompileOps(schema, field, col, ops, n).value.clauses);
            && (r.Some? <==> ReadableOps(ops))
            && (r.Some? && PlainOps(ops) ==>
                r.value == DenoteOps(env.eng, env.row, schema, field, Cell(env.row, col), ops))
    decreases ops, 2
  {
    if ops != [] {
      var h := CompileOp(schema, field, col, ops[0], n).value;
      var t := CompileOps(schema, field, col, ops[1..], n + |h.pushed|).value;
      CarriesParts(env, n, h.pushed, t.pushed);
      OpMeaning(env, schema, field, col, ops[0], n);
      OpsMeaning(env, schema, field, col, ops[1..], n + |h.pushed|);
      assert (h.clauses + t.clauses)[1..] == t.clauses;
    }
  }

  lemma {:induction false} OpMeaning(env: Env, schema: Schema, field: string, col: string, op: Op, n: nat)
    requires Column(schema, field) == Ok(col)
    requires CompileOp(schema, field, col, op, n).Ok?
    requires Carries(env, n, CompileOp(schema, field, col, op, n).value.pushed)
    ensures var r := Eval(env, CompileOp(schema, field, col, op, n).value.clauses[0]);
            && (r.Some? <==> ReadableOp(op))
            && (r.Some? && PlainOp(op) ==>
                r.value == DenoteOp(env.eng, env.row, schema, field, Cell(env.row, col), op))
    decreases op, 1
  {
    var c := CompileOp(schema, field, col, op, n).value;
    if |c.pushed| == 1 {
      assert env.params[n..n + 1][0] == env.params[n];
    }
    match op
    case Complement(x) =>
      if x.Ops? && SizeOf(x.ops).Some? {
        if AllRedundant(x.ops, SizeOf(x.ops).value) {
          RedundantMeaning(env, schema, field, Cell(env.row, col), x.ops, SizeOf(x.ops).value);
        }
      } else {
        OperandMeaning(env, schema, field, x, n);
      }
    case _ =>
  }

  /** Operators that add nothing to `$size: n` leave its meaning as it is. */
  lemma {:induction false} RedundantMeaning(env: Env, schema: Schema, field: string, cell: Value, ops: seq<Op>, n: int)
    requires AllRedundant(ops, n)
    ensures DenoteOps(env.eng, env.row, schema, field, cell, ops)
         == if SizeOf(ops).Some? then LengthIs(env.eng, cell, n) else True
  {
    if ops != [] {
      assert Redundant(ops[0], n);
      RedundantMeaning(env, schema, field, cell, ops[1..], n);
    }
  }

  // ---- Which filters compile to nothing ----

  lemma {:induction false} FilterEmpty(schema: Schema, f: Filter, n: nat)
    requires CompileFilter(schema, f, n).Ok?
    ensures CompileFilter(schema, f, n).value.clauses == [] <==> Vacuous(f)
    decreases f, 3
  {
    EntriesEmpty(schema, f.entries, n);
  }

  lemma {:induction false} EntriesEmpty(schema: Schema, es: seq<Entry>, n: nat)
    requires CompileEntries(schema, es, n).Ok?
    ensures CompileEntries(schema, es, n).value.clauses == [] <==> VacuousEntries(es)
    decreases es, 2
  {
    if es != [] {
      var h := CompileEntry(schema, es[0], n).value;
      EntriesEmpty(schema, es[1..], n + |h.pushed|);
      if es[0].And? {
        AllEmpty(schema, es[0].subs, n);
      }
    }
  }

  lemma {:induction false} AllEmpty(schema: Schema, subs: seq<Filter>, n: nat)
    requires CompileSubs(schema, subs, n).Ok?
    ensures NonEmpty(CompileSubs(schema, subs, n).value.clauses) == [] <==> VacuousAll(subs)
    decreases subs, 4
  {
    if subs != [] {
      var h := CompileFilter(schema, subs[0], n).value;
      var t := CompileSubs(schema, subs[1..], n + |h.pushed|).value;
      FilterEmpty(schema, subs[0], n);
      AllEmpty(schema, subs[1..], n + |h.pushed|);
      assert ([Conj(h.clauses)] + t.clauses)[1..] == t.clauses;
    }
  }

  // ---- Whole filters ----

  lemma {:induction false} FilterEval(env: Env, schema: Schema, f: Filter, n: nat)
    requires CompileFilter(schema, f, n).Ok?
    requires Carries(env, n, CompileFilter(schema, f, n).value.pushed)
    ensures var r := EvalConj(env, CompileFilter(schema, f, n).value.clauses);
            && (r.Some? <==> Readable(f))
            && (r.Some? && Plain(f) ==> r.value == Denote(env.eng, env.row, schema, f))
    decreases f, 3
  {
    EntriesEval(env, schema, f.entries, n);
  }

  lemma {:induction false} EntriesEval(env: Env, schema: Schema, es: seq<Entry>, n: nat)
    requires CompileEntries(schema, es, n).Ok?
    requires Carries(env, n, CompileEntries(schema, es, n).value.pushed)
    ensures var r := EvalConj(env, CompileEntries(schema, es, n).value.clauses);
            && (r.Some? <==> ReadableEntries(es))
            && (r.Some? && PlainEntries(es) ==> r.value == DenoteEntries(env.eng, env.row, schema, es))
    decreases es, 2
  {
    if es != [] {
      var h := CompileEntry(schema, es[0], n).value;
      var t := CompileEntries(schema, es[1..], n + |h.pushed|).value;
      CarriesParts(env, n, h.pushed, t.pushed);
      EntryEval(env, schema, es[0], n);
      EntriesEval(env, schema, es[1..], n + |h.pushed|);
      ConjAppend(env, h.clauses, t.clauses);
    }
  }

  lemma {:induction false} EntryEval(env: Env, schema: Schema, e: Entry, n: nat)
    requires CompileEntry(schema, e, n).Ok?
    requires Carries(env, n, CompileEntry(schema, e, n).value.pushed)
    ensures var r := EvalConj(env, CompileEntry(schema, e, n).value.clauses);
            && (r.Some? <==> ReadableEntry(e))
            && (r.Some? && PlainEntry(e) ==> r.value == DenoteEntry(env.eng, env.row, schema, e))
    decreases e, 1
  {
    var c := CompileEntry(schema, e, n).value;
    match e
    case Field(name, x) =>
      OperandMeaning(env, schema, name, x, n);
      Singleton(env, c.clauses[0]);
      assert c.clauses == [c.clauses[0]];
    case Or(subs) =>
      AnyEval(env, schema, subs, n);
      if subs != [] {
        Singleton(env, c.clauses[0]);
      }
    case And(subs) =>
      AllEval(env, schema, subs, n);
  }

  lemma Singleton(env: Env, e: Clause)
    ensures EvalConj(env, [e]) == Eval(env, e)
  {
    assert [e][1..] == [];
    assert EvalConj(env, [e][1..]) == Some(True);
  }

  lemma {:induction false} AnyEval(env: Env, schema: Schema, subs: seq<Filter>, n: nat)
    requires CompileSubs(schema, subs, n).Ok?
    requires Carries(env, n, CompileSubs(schema, subs, n).value.pushed)
    ensures var r := EvalDisj(env, CompileSubs(schema, subs, n).value.clauses);
            && (r.Some? <==> ReadableAll(subs) && NoneVacuous(subs))
            && (r.Some? && PlainAll(subs) ==> r.value == DenoteAny(env.eng, env.row, schema, subs))
    decreases subs, 4
  {
    if subs != [] {
      var h := CompileFilter(schema, subs[0], n).value;
      var t := CompileSubs(schema, subs[1..], n + |h.pushed|).value;
      CarriesParts(env, n, h.pushed, t.pushed);
      FilterEval(env, schema, subs[0], n);
      FilterEmpty(schema, subs[0], n);
      AnyEval(env, schema, subs[1..], n + |h.pushed|);
      assert ([Conj(h.clauses)] + t.clauses)[1..] == t.clauses;
    }
  }

  lemma {:induction false} AllEval(env: Env, schema: Schema, subs: seq<Filter>, n: nat)
    requires CompileSubs(schema, subs, n).Ok?
    requires Carries(env, n, CompileSubs(schema, subs, n).value.pushed)
    ensures var r := EvalConj(env, NonEmpty(CompileSubs(schema, subs, n).value.clauses));
            && (r.Some? <==> ReadableAll(subs))
            && (r.Some? && PlainAll(subs) ==> r.value == DenoteAll(env.eng, env.row, schema, subs))
    decreases subs, 4
  {
    if subs != [] {
      var h := CompileFilter(schema, subs[0], n).value;
      var t := CompileSubs(schema, subs[1..], n + |h.pushed|).value;
      CarriesParts(env, n, h.pushed, t.pushed);
      FilterEval(env, schema, subs[0], n);
      AllEval(env, schema, subs[1..], n + |h.pushed|);
      NonEmptyHead(env, h.clauses, t.clauses);
    }
  }

  /** A member compiled to `()` is left out of an `$and`; any other is one more conjunct. */
  lemma NonEmptyHead(env: Env, member: seq<Clause>, rest: seq<Clause>)
    ensures EvalConj(env, NonEmpty([Conj(member)] + rest)) == Both(EvalConj(env, member), EvalConj(env, NonEmpty(rest)))
  {
    var all := [Conj(member)] + rest;
    assert all[1..] == rest;
    var head := if member == [] then [] else [Conj(member)];
    assert NonEmpty(all) == head + NonEmpty(rest);
    ConjAppend(env, head, NonEmpty(rest));
    Singleton(env, Conj(member));
  }

  /**
   Meaning preservation. For any parameters already in the list and any pushed
   later, the emitted text is readable exactly when the filter is `Readable`,
   and then has the filter's meaning on every row if the filter is `Plain`.
   */
  lemma WherePreservesMeaning(eng: Engine, row: Row, schema: Schema, f: Filter, before: seq<Param>, after: seq<Param>)
    requires CompileFilter(schema, f, |before|).Ok?
    ensures var c := CompileFilter(schema, f, |before|).value;
            var r := Meaning(Env(eng, row, before + c.pushed + after), Join(RenderAll(c.clauses), AND));
            && (r.Some? <==> Readable(f))
            && (Readable(f) && Plain(f) ==> r == Some(Denote(eng, row, schema, f)))
  {
    var c := CompileFilter(schema, f, |before|).value;
    var env := Env(eng, row, before + c.pushed + after);
    assert env.params[|before|..|before| + |c.pushed|] == c.pushed;
    FilterEval(env, schema, f, |before|);
    MeaningOfClauses(env, c.clauses);
  }

  /** `$not: {$size: n, ...}` is right on one row when the length alone decides the whole object there. */
  lemma NotSizeOnRow(env: Env, schema: Schema, field: string, col: string, ops: seq<Op>, n: nat)
    requires Column(schema, field) == Ok(col) && SizeOf(ops).Some?
    ensures var cell := Cell(env.row, col);
            var len := LengthIs(env.eng, cell, SizeOf(ops).value);
            var whole := DenoteOps(env.eng, env.row, schema, field, cell, ops);
            Eval(env, CompileOp(schema, field, col, Complement(Ops(ops)), n).value.clauses[0]) == Some(Not3(whole))
            <==> (len == True ==> whole == True) && (len == Unknown ==> whole != False)
  {
    SizeBounds(env, schema, field, Cell(env.row, col), ops);
  }

  lemma {:induction false} SizeBounds(env: Env, schema: Schema, field: string, cell: Value, ops: seq<Op>)
    requires SizeOf(ops).Some?
    ensures var len := LengthIs(env.eng, cell, SizeOf(ops).value);
            var whole := DenoteOps(env.eng, env.row, schema, field, cell, ops);
            && (len == False ==> whole == False)
            && (len == Unknown ==> whole != True)
  {
    if !ops[0].Size? {
      SizeBounds(env, schema, field, cell, ops[1..]);
    }
  }

  // ---- Exactly when dropping operators does no harm ----

  /** The clause compiled for `$not: {ops}` has the right value on this row of this database. */
  ghost predicate RightOn(eng: Engine, row: Row, schema: Schema, field: string, col: string, ops: seq<Op>)
    requires SizeOf(ops).Some?
  {
    Eval(Env(eng, row, []), CompileOp(schema, field, col, Complement(Ops(ops)), 0).value.clauses[0])
    == Some(Not3(DenoteOps(eng, row, schema, field, Cell(row, col), ops)))
  }

  /** The comparisons of the database come from an order. */
  ghost predicate Lawful(eng: Engine) {
    && (forall a, b :: eng.cmp(a, b) < 0 <==> eng.cmp(b, a) > 0)
    && (forall a, b, c :: eng.cmp(a, b) <= 0 && eng.cmp(b, c) <= 0 ==> eng.cmp(a, c) <= 0)
  }

  function Rank(a: Value, cell: Value, place: int): int {
    if a == cell then place else 0
  }

  /** A database that puts one cell at a place of its own, where nothing matches and every length is the same. */
  function Placing(cell: Value, place: int, length: int): Engine {
    Engine((a, b) => Rank(a, cell, place) - Rank(b, cell, place), (a, p, i) => false, (a, p) => false, a => length)
  }

  lemma PlacingCompares(cell: Value, place: int, length: int, v: Value)
    ensures Placing(cell, place, length).cmp(cell, v) == if v == cell then 0 else place
  {
  }

  lemma PlacingLawful(cell: Value, place: int, length: int)
    ensures Lawful(Placing(cell, place, length))
  {
  }

  /** A number above all numbers in the list. */
  function Above(items: seq<Value>): (k: int)
    ensures forall i | 0 <= i < |items| && items[i].Num? :: items[i].n < k
  {
    if items == [] then 0
    else
      var k := Above(items[1..]);
      if items[0].Num? && items[0].n >= k then items[0].n + 1 else k
  }

  lemma AboveIsNew(items: seq<Value>, i: nat)
    requires i < |items|
    ensures items[i] != Num(Above(items))
  {
    if items[i].Num? {
      assert items[i].n < Above(items);
    }
  }

  lemma {:induction false} NoneEqual(eng: Engine, cell: Value, items: seq<Value>)
    requires forall i | 0 <= i < |items| :: eng.cmp(cell, items[i]) != 0
    ensures EqualsAny(eng, cell, items) != True
  {
    if items != [] {
      NoneEqual(eng, cell, items[1..]);
    }
  }

  lemma {:induction false} OneSpoils(
    eng: Engine, row: Row, schema: Schema, field: string, cell: Value, ops: seq<Op>, i: nat)
    requires i < |ops|
    ensures var v := DenoteOp(eng, row, schema, field, cell, ops[i]);
            var whole := DenoteOps(eng, row, schema, field, cell, ops);
            (v != True ==> whole != True) && (v == False ==> whole == False)
  {
    if i > 0 {
      OneSpoils(eng, row, schema, field, cell, ops[1..], i - 1);
    }
  }

  /** The place that makes a comparison with anything at 0 false. */
  function Against(rel: CmpOp): int {
    if rel == Gt || rel == Gte then -1 else 1
  }

  lemma RelationFails(rel: CmpOp, v: Value, n: int)
    ensures var cell := Num(Above([v])); Compare(Placing(cell, Against(rel), n), rel, cell, v) != True
  {
    AboveIsNew([v], 0);
    PlacingCompares(Num(Above([v])), Against(rel), n, v);
  }

  lemma InFails(items: seq<Value>, n: int)
    ensures var cell := Num(Above(items)); EqualsAny(Placing(cell, 1, n), cell, items) != True
  {
    var cell := Num(Above(items));
    forall i | 0 <= i < |items| ensures Placing(cell, 1, n).cmp(cell, items[i]) != 0 {
      AboveIsNew(items, i);
      PlacingCompares(cell, 1, n, items[i]);
    }
    NoneEqual(Placing(cell, 1, n), cell, items);
  }

  lemma NinFails(items: seq<Value>, n: int)
    requires items != []
    ensures EqualsAny(Placing(Num(0), 0, n), Num(0), items) != False
  {
    PlacingCompares(Num(0), 0, n, items[0]);
  }

  /**
   For every operator that is neither redundant nor a negation there is a cell on
   which the length is right and the operator is not true, or the length is unknown
   and the operator is false.
   */
  lemma Spoiler(row: Row, schema: Schema, field: string, op: Op, n: int) returns (eng: Engine, cell: Value)
    requires !Redundant(op, n) && !op.Complement?
    ensures Lawful(eng)
    ensures var len, v := LengthIs(eng, cell, n), DenoteOp(eng, row, schema, field, cell, op);
            (len == True && v != True) || (len == Unknown && v == False)
  {
    var place := 0;
    match op {
      case Relation(rel, v) =>
        cell, place := Num(Above([v])), Against(rel);
        RelationFails(rel, v, n);
      case Ne(v) =>
        cell := if IsNull(v) then Null else Num(0);
        PlacingCompares(cell, place, n, v);
      case Exists(present) =>
        cell := if present then Null else Num(0);
      case In(items) =>
        cell, place := Num(Above(items)), 1;
        InFails(items, n);
      case Nin(items) =>
        cell := Num(0);
        NinFails(items, n);
      case _ =>
        cell := Num(0);
    }
    eng := Placing(cell, place, n);
    PlacingLawful(cell, place, n);
  }

  /** `DenoteOp` looks at the rest of the row only through a nested negation. */
  lemma RowIrrelevant(eng: Engine, r: Row, s: Row, schema: Schema, field: string, cell: Value, op: Op)
    requires !op.Complement?
    ensures DenoteOp(eng, r, schema, field, cell, op) == DenoteOp(eng, s, schema, field, cell, op)
  {
  }

  predicate NoNestedNot(ops: seq<Op>) {
    forall i | 0 <= i < |ops| :: !ops[i].Complement?
  }

  lemma WrongSomewhere(schema: Schema, field: string, col: string, ops: seq<Op>, i: nat) returns (eng: Engine, row: Row)
    requires Column(schema, field) == Ok(col) && SizeOf(ops).Some?
    requires i < |ops| && !ops[i].Complement? && !Redundant(ops[i], SizeOf(ops).value)
    ensures Lawful(eng) && !RightOn(eng, row, schema, field, col, ops)
  {
    var cell;
    eng, cell := Spoiler(map[], schema, field, ops[i], SizeOf(ops).value);
    row := map[col := cell];
    RowIrrelevant(eng, map[], row, schema, field, cell, ops[i]);
    OneSpoils(eng, row, schema, field, cell, ops, i);
    NotSizeOnRow(Env(eng, row, []), schema, field, col, ops, 0);
  }

  /**
   `$not` over an object with `$size: n` and no further `$not` in it compiles to the
   right condition, for every database with lawful comparisons and every row, if and
   only if every operator of the object is `$size: n` or `$nin: []`. That can be read
   off the filter.
   */
  lemma NotSizeExactlyWhen(schema: Schema, field: string, col: string, ops: seq<Op>)
    requires Column(schema, field) == Ok(col) && SizeOf(ops).Some? && NoNestedNot(ops)
    ensures (forall eng, row | Lawful(eng) :: RightOn(eng, row, schema, field, col, ops))
            <==> AllRedundant(ops, SizeOf(ops).value)
  {
    var n := SizeOf(ops).value;
    if AllRedundant(ops, n) {
      forall eng, row | Lawful(eng) ensures RightOn(eng, row, schema, field, col, ops) {
        RedundantMeaning(Env(eng, row, []), schema, field, Cell(row, col), ops, n);
      }
    } else {
      var i :| 0 <= i < |ops| && !Redundant(ops[i], n);
      var eng, row := WrongSomewhere(schema, field, col, ops, i);
    }
  }

  /** A concrete filter whose compiled text is not its meaning: the `$exists` is dropped. */
  lemma NotSizeDropsOperators(eng: Engine, schema: Schema)
    requires "migrationHistory" in schema.columns && eng.length(List([])) == 0
    ensures var f := Filter([Field("migrationHistory", Ops([Complement(Ops([Size(0), Exists(false)]))]))]);
            var row := map[schema.columns["migrationHistory"] := List([])];
            && Denote(eng, row, schema, f) == True
            && Meaning(Env(eng, row, []), Join(RenderAll(CompileFilter(schema, f, 0).value.clauses), AND))
               == Some(False)
  {
    var col := schema.columns["migrationHistory"];
    var inner := [Size(0), Exists(false)];
    var ops := [Complement(Ops(inner))];
    var es := [Field("migrationHistory", Ops(ops))];
    var f := Filter(es);
    var row: Row := map[col := List([])];
    var env := Env(eng, row, []);
    var leaf := Leaf(Length(col, false, 0));
    assert inner[1..] == [Exists(false)] && [Exists(false)][1..] == [];
    assert ops[1..] == [] && es[1..] == [];
    assert DenoteOps(eng, row, schema, "migrationHistory", List([]), inner[1..]) == False;
    assert DenoteOps(eng, row, schema, "migrationHistory", List([]), ops[1..]) == True;
    assert DenoteEntries(eng, row, schema, es[1..]) == True;
    assert CompileOp(schema, "migrationHistory", col, ops[0], 0) == Ok(One(leaf, []));
    assert CompileOps(schema, "migrationHistory", col, ops[1..], 0) == Ok(Compiled([], []));
    assert CompileOps(schema, "migrationHistory", col, ops, 0) == Ok(Append(One(leaf, []), Compiled([], [])));
    assert CompileEntry(schema, es[0], 0) == Ok(One(Conj([leaf]), [])) by {
      assert Append(One(leaf, []), Compiled([], [])) == One(leaf, []);
      assert CompileOperand(schema, "migrationHistory", Ops(ops), 0) == Ok(One(Conj([leaf]), []));
    }
    assert CompileEntries(schema, es[1..], 0) == Ok(Compiled([], []));
    assert CompileFilter(schema, f, 0) == Ok(Append(One(Conj([leaf]), []), Compiled([], [])));
    assert [Conj([leaf])] + [] == [Conj([leaf])];
    Singleton(env, leaf);
    Singleton(env, Conj([leaf]));
    MeaningOfClauses(env, [Conj([leaf])]);
  }

  // ---- Placeholders ----

  function AtomRefs(a: Atom): seq<nat> {
    match a
    case Cmp(_, _, k) => [k]
    case Distinct(_, k) => [k]
    case AnyOf(_, k) => [k]
    case Matches(_, k, _) => [k]
    case HasJson(_, k) => [k]
    case HasText(_, k) => [k]
    case _ => []
  }

  /** The placeholder numbers of a clause, left to right. */
  function Refs(e: Clause): seq<nat>
    decreases e, 0
  {
    match e
    case Leaf(a) => AtomRefs(a)
    case Negate(x) => Refs(x)
    case Conj(es) => RefsAll(es)
    case Disj(es) => RefsAll(es)
  }

  function RefsAll(es: seq<Clause>): seq<nat>
    decreases es, 1
  {
    if es == [] then [] else Refs(es[0]) + RefsAll(es[1..])
  }

  /** n + 1, n + 2, ..., n + k */
  function Numbers(n: nat, k: nat): seq<nat> {
    seq(k, i requires i >= 0 => n + 1 + i)
  }

  lemma NumbersAppend(n: nat, j: nat, k: nat)
    ensures Numbers(n, j) + Numbers(n + j, k) == Numbers(n, j + k)
  {
  }

  lemma {:induction false} RefsAppend(a: seq<Clause>, b: seq<Clause>)
    ensures RefsAll(a + b) == RefsAll(a) + RefsAll(b)
  {
    if a == [] {
      assert a + b == b;
    } else {
      assert (a + b)[1..] == a[1..] + b;
      RefsAppend(a[1..], b);
    }
  }

  lemma RefsOne(e: Clause)
    ensures RefsAll([e]) == Refs(e)
  {
    assert [e][1..] == [];
  }

  lemma {:induction false} RefsNonEmpty(es: seq<Clause>)
    ensures RefsAll(NonEmpty(es)) == RefsAll(es)
  {
    if es != [] {
      var head := if es[0] == Conj([]) then [] else [es[0]];
      RefsNonEmpty(es[1..]);
      RefsAppend(head, NonEmpty(es[1..]));
      RefsOne(es[0]);
    }
  }

  lemma {:induction false} OperandRefs(schema: Schema, field: string, x: Operand, n: nat)
    requires CompileOperand(schema, field, x, n).Ok?
    ensures var c := CompileOperand(schema, field, x, n).value;
            Refs(c.clauses[0]) == Numbers(n, |c.pushed|)
    decreases x, 0
  {
    if x.Ops? {
      OpsRefs(schema, field, Column(schema, field).value, x.ops, n);
    }
  }

  lemma {:induction false} OpsRefs(schema: Schema, field: string, col: string, ops: seq<Op>, n: nat)
    requires CompileOps(schema, field, col, ops, n).Ok?
    ensures var c := CompileOps(schema, field, col, ops, n).value;
            RefsAll(c.clauses) == Numbers(n, |c.pushed|)
    decreases ops, 2
  {
    if ops != [] {
      var h := CompileOp(schema, field, col, ops[0], n).value;
      var t := CompileOps(schema, field, col, ops[1..], n + |h.pushed|).value;
      OpRefs(schema, field, col, ops[0], n);
      OpsRefs(schema, field, col, ops[1..], n + |h.pushed|);
      assert (h.clauses + t.clauses)[1..] == t.clauses;
      NumbersAppend(n, |h.pushed|, |t.pushed|);
    }
  }

  lemma {:induction false} OpRefs(schema: Schema, field: string, col: string, op: Op, n: nat)
    requires CompileOp(schema, field, col, op, n).Ok?
    ensures var c := CompileOp(schema, field, col, op, n).value;
            Refs(c.clauses[0]) == Numbers(n, |c.pushed|)
    decreases op, 1
  {
    if op.Complement? && !(op.x.Ops? && SizeOf(op.x.ops).Some?) {
      OperandRefs(schema, field, op.x, n);
    }
  }

  lemma {:induction false} EntriesRefs(schema: Schema, es: seq<Entry>, n: nat)
    requires CompileEntries(schema, es, n).Ok?
    ensures var c := CompileEntries(schema, es, n).value;
            RefsAll(c.clauses) == Numbers(n, |c.pushed|)
    decreases es, 2
  {
    if es != [] {
      var h := CompileEntry(schema, es[0], n).value;
      var t := CompileEntries(schema, es[1..], n + |h.pushed|).value;
      EntryRefs(schema, es[0], n);
      EntriesRefs(schema, es[1..], n + |h.pushed|);
      AppendRefs(h, t, n);
    }
  }

  lemma AppendRefs(h: Compiled, t: Compiled, n: nat)
    requires RefsAll(h.clauses) == Numbers(n, |h.pushed|)
    requires RefsAll(t.clauses) == Numbers(n + |h.pushed|, |t.pushed|)
    ensures RefsAll(Append(h, t).clauses) == Numbers(n, |Append(h, t).pushed|)
  {
    RefsAppend(h.clauses, t.clauses);
    NumbersAppend(n, |h.pushed|, |t.pushed|);
  }

  lemma {:induction false} EntryRefs(schema: Schema, e: Entry, n: nat)
    requires CompileEntry(schema, e, n).Ok?
    ensures var c := CompileEntry(schema, e, n).value;
            RefsAll(c.clauses) == Numbers(n, |c.pushed|)
    decreases e, 1
  {
    var c := CompileEntry(schema, e, n).value;
    match e
    case Field(name, x) =>
      OperandRefs(schema, name, x, n);
      RefsOne(c.clauses[0]);
      assert c.clauses == [c.clauses[0]];
    case Or(subs) =>
      SubsRefs(schema, subs, n);
      if subs != [] {
        RefsOne(c.clauses[0]);
      }
    case And(subs) =>
      SubsRefs(schema, subs, n);
      RefsNonEmpty(CompileSubs(schema, subs, n).value.clauses);
  }

  lemma {:induction false} SubsRefs(schema: Schema, subs: seq<Filter>, n: nat)
    requires CompileSubs(schema, subs, n).Ok?
    ensures var c := CompileSubs(schema, subs, n).value;
            RefsAll(c.clauses) == Numbers(n, |c.pushed|)
    decreases subs, 4
  {
    if subs != [] {
      var h := CompileFilter(schema, subs[0], n).value;
      var t := CompileSubs(schema, subs[1..], n + |h.pushed|).value;
      EntriesRefs(schema, subs[0].entries, n);
      SubsRefs(schema, subs[1..], n + |h.pushed|);
      assert ([Conj(h.clauses)] + t.clauses)[1..] == t.clauses;
      NumbersAppend(n, |h.pushed|, |t.pushed|);
    }
  }

  /** Each pushed parameter is referenced exactly once, in push order, and nothing else is. */
  lemma EachParameterOnce(schema: Schema, f: Filter, n: nat)
    requires CompileFilter(schema, f, n).Ok?
    ensures var c := CompileFilter(schema, f, n).value;
            RefsAll(c.clauses) == Numbers(n, |c.pushed|)
  {
    EntriesRefs(schema, f.entries, n);
  }
}
