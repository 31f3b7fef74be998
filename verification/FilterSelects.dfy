/**
 What a filter selects, in two-valued terms and without the compiler: when a row
 certainly meets it, when a row certainly fails it, and which filters are refused,
 with which message. The main result joins this to the compiled text.
 */
module FilterSelects {
  import opened Prelude
  import opened Sql
  import opened Filter
  import opened FilterMeaning

  // ---- Which filters are refused ----

  predicate HasSize(ops: seq<Op>) {
    exists i | 0 <= i < |ops| :: ops[i].Size?
  }

  /** The first thing in a field's value that the compiler does not know, in document order. */
  function FaultOperand(schema: Schema, field: string, x: Operand): Option<string>
    decreases x, 0
  {
    if field != "_id" && field !in schema.columns then Some("Unknown field: " + field)
    else if x.Ops? then FaultOps(schema, field, x.ops) else None
  }

  function FaultOps(schema: Schema, field: string, ops: seq<Op>): Option<string>
    decreases ops, 2
  {
    if ops == [] then None
    else
      var first := FaultOp(schema, field, ops[0]);
      if first.Some? then first else FaultOps(schema, field, ops[1..])
  }

  /** `$not` around `$size` looks at nothing else. */
  function FaultOp(schema: Schema, field: string, op: Op): Option<string>
    decreases op, 1
  {
    if op.Unsupported? then Some("Unsupported operator: " + op.name)
    else if op.Complement? && !(op.x.Ops? && HasSize(op.x.ops)) then FaultOperand(schema, field, op.x)
    else None
  }

  function Fault(schema: Schema, f: Filter): Option<string>
    decreases f, 3
  {
    FaultEntries(schema, f.entries)
  }

  function FaultEntries(schema: Schema, es: seq<Entry>): Option<string>
    decreases es, 2
  {
    if es == [] then None
    else
      var first := FaultEntry(schema, es[0]);
      if first.Some? then first else FaultEntries(schema, es[1..])
  }

  function FaultEntry(schema: Schema, e: Entry): Option<string>
    decreases e, 1
  {
    match e
    case Field(name, x) => FaultOperand(schema, name, x)
    case Or(subs) => FaultSubs(schema, subs)
    case And(subs) => FaultSubs(schema, subs)
  }

  function FaultSubs(schema: Schema, subs: seq<Filter>): Option<string>
    decreases subs, 4
  {
    if subs == [] then None
    else
      var first := Fault(schema, subs[0]);
      if first.Some? then first else FaultSubs(schema, subs[1..])
  }

  /** The result is an error exactly if there is a fault, and then the fault is the message. */
  predicate FailsWith(r: Result<Compiled>, fault: Option<string>) {
    if fault.Some? then r == Err(fault.value) else r.Ok?
  }

  lemma {:induction false} SizeFound(ops: seq<Op>)
    ensures SizeOf(ops).Some? <==> HasSize(ops)
  {
    if ops != [] {
      SizeFound(ops[1..]);
      if HasSize(ops) && !ops[0].Size? {
        var i :| 0 <= i < |ops| && ops[i].Size?;
        assert ops[1..][i - 1].Size?;
      }
      if HasSize(ops[1..]) {
        var i :| 0 <= i < |ops[1..]| && ops[1..][i].Size?;
        assert ops[i + 1].Size?;
      }
    }
  }

  lemma {:induction false} OperandFails(schema: Schema, field: string, x: Operand, n: nat)
    ensures FailsWith(CompileOperand(schema, field, x, n), FaultOperand(schema, field, x))
    decreases x, 0
  {
    if x.Ops? && Column(schema, field).Ok? {
      OpsFail(schema, field, Column(schema, field).value, x.ops, n);
    }
  }

  lemma {:induction false} OpsFail(schema: Schema, field: string, col: string, ops: seq<Op>, n: nat)
    requires Column(schema, field) == Ok(col)
    ensures FailsWith(CompileOps(schema, field, col, ops, n), FaultOps(schema, field, ops))
    decreases ops, 2
  {
    if ops != [] {
      OpFails(schema, field, col, ops[0], n);
      var h := CompileOp(schema, field, col, ops[0], n);
      if h.Ok? {
        OpsFail(schema, field, col, ops[1..], n + |h.value.pushed|);
      }
    }
  }

  lemma {:induction false} OpFails(schema: Schema, field: string, col: string, op: Op, n: nat)
    requires Column(schema, field) == Ok(col)
    ensures FailsWith(CompileOp(schema, field, col, op, n), FaultOp(schema, field, op))
    decreases op, 1
  {
    if op.Complement? {
      if op.x.Ops? {
        SizeFound(op.x.ops);
      }
      OperandFails(schema, field, op.x, n);
    }
  }

  /** Compilation fails exactly on the first unknown field or unsupported operator, and names it. */
  lemma {:induction false} CompileFails(schema: Schema, f: Filter, n: nat)
    ensures FailsWith(CompileFilter(schema, f, n), Fault(schema, f))
    decreases f, 3
  {
    EntriesFail(schema, f.entries, n);
  }

  lemma {:induction false} EntriesFail(schema: Schema, es: seq<Entry>, n: nat)
    ensures FailsWith(CompileEntries(schema, es, n), FaultEntries(schema, es))
    decreases es, 2
  {
    if es != [] {
      EntryFails(schema, es[0], n);
      var h := CompileEntry(schema, es[0], n);
      if h.Ok? {
        EntriesFail(schema, es[1..], n + |h.value.pushed|);
      }
    }
  }

  lemma {:induction false} EntryFails(schema: Schema, e: Entry, n: nat)
    ensures FailsWith(CompileEntry(schema, e, n), FaultEntry(schema, e))
    decreases e, 1
  {
    match e
    case Field(name, x) => OperandFails(schema, name, x, n);
    case Or(subs) => SubsFail(schema, subs, n);
    case And(subs) => SubsFail(schema, subs, n);
  }

  lemma {:induction false} SubsFail(schema: Schema, subs: seq<Filter>, n: nat)
    ensures FailsWith(CompileSubs(schema, subs, n), FaultSubs(schema, subs))
    decreases subs, 4
  {
    if subs != [] {
      CompileFails(schema, subs[0], n);
      var h := CompileFilter(schema, subs[0], n);
      if h.Ok? {
        SubsFail(schema, subs[1..], n + |h.value.pushed|);
      }
    }
  }

  // ---- Which rows certainly meet a filter, and which certainly fail it ----

  /** The column that a field names: `_id` is the primary key, other fields are in the table. */
  predicate Names(schema: Schema, field: string, col: string) {
    (field == "_id" && col == "id") || (field != "_id" && field in schema.columns && schema.columns[field] == col)
  }

  predicate Known(v: Value) {
    v != Null && v != Undefined
  }

  predicate Stands(rel: CmpOp, cmp: int) {
    match rel
    case Eq => cmp == 0
    case Gt => cmp > 0
    case Gte => cmp == 0 || cmp > 0
    case Lt => cmp < 0
    case Lte => cmp == 0 || cmp < 0
  }

  predicate EqualTo(eng: Engine, cell: Value, v: Value) {
    Known(cell) && Known(v) && eng.cmp(cell, v) == 0
  }

  predicate OtherThan(eng: Engine, cell: Value, v: Value) {
    Known(cell) && Known(v) && eng.cmp(cell, v) != 0
  }

  /** The cell is one of the items (`b`), or certainly none of them (not `b`). */
  predicate Among(eng: Engine, cell: Value, items: seq<Value>, b: bool) {
    if b then exists i | 0 <= i < |items| :: EqualTo(eng, cell, items[i])
    else forall i | 0 <= i < |items| :: OtherThan(eng, cell, items[i])
  }

  /** The condition on the cell certainly holds (`b`), or certainly does not (not `b`). */
  predicate DecidesOperand(eng: Engine, schema: Schema, field: string, cell: Value, x: Operand, b: bool)
    decreases x, 0
  {
    match x
    case Is(v) =>
      if field in schema.jsonb
      then Known(cell) && Known(v) && eng.contains(cell, if v.List? then Json(v.items) else Bind(v)) == b
      else Known(cell) && Known(v) && (eng.cmp(cell, v) == 0) == b
    case Ops(ops) =>
      if b then forall i | 0 <= i < |ops| :: DecidesOp(eng, schema, field, cell, ops[i], true)
      else exists i | 0 <= i < |ops| :: DecidesOp(eng, schema, field, cell, ops[i], false)
  }

  predicate DecidesOp(eng: Engine, schema: Schema, field: string, cell: Value, op: Op, b: bool)
    decreases op, 1
  {
    match op
    case Relation(rel, v) => Known(cell) && Known(v) && Stands(rel, eng.cmp(cell, v)) == b
    case Ne(v) => ((!Known(cell) && !Known(v)) || EqualTo(eng, cell, v)) == !b
    case Exists(present) => (Known(cell) == present) == b
    case In(items) => Among(eng, cell, items, b)
    case Nin(items) => Among(eng, cell, items, !b)
    case Regex(pattern, insensitive) => Known(cell) && eng.regex(cell, pattern, insensitive) == b
    case Size(n) => Known(cell) && (eng.length(cell) == n) == b
    case Complement(x) => DecidesOperand(eng, schema, field, cell, x, !b)
    case Unsupported(_) => false
  }

  ghost predicate Decides(eng: Engine, row: Row, schema: Schema, f: Filter, b: bool)
    decreases f, 3
  {
    if b then forall i | 0 <= i < |f.entries| :: DecidesEntry(eng, row, schema, f.entries[i], true)
    else exists i | 0 <= i < |f.entries| :: DecidesEntry(eng, row, schema, f.entries[i], false)
  }

  /** A field condition is about the column that the field names. */
  ghost predicate DecidesEntry(eng: Engine, row: Row, schema: Schema, e: Entry, b: bool)
    decreases e, 1
  {
    match e
    case Field(name, x) =>
      exists col :: Names(schema, name, col) && DecidesOperand(eng, schema, name, Cell(row, col), x, b)
    case Or(subs) =>
      if b then subs == [] || exists i | 0 <= i < |subs| :: Decides(eng, row, schema, subs[i], true)
      else subs != [] && forall i | 0 <= i < |subs| :: Decides(eng, row, schema, subs[i], false)
    case And(subs) =>
      if b then forall i | 0 <= i < |subs| :: Decides(eng, row, schema, subs[i], true)
      else exists i | 0 <= i < |subs| :: Decides(eng, row, schema, subs[i], false)
  }

  // ---- The denotation decides exactly that ----

  lemma {:induction false} AmongIff(eng: Engine, cell: Value, items: seq<Value>, b: bool)
    ensures EqualsAny(eng, cell, items) == Of(b) <==> Among(eng, cell, items, b)
  {
    if items != [] {
      AmongIff(eng, cell, items[1..], b);
      AmongCons(eng, cell, items, b);
    }
  }

  lemma AmongCons(eng: Engine, cell: Value, items: seq<Value>, b: bool)
    requires items != []
    ensures Among(eng, cell, items, b) <==>
            if b then EqualTo(eng, cell, items[0]) || Among(eng, cell, items[1..], b)
            else OtherThan(eng, cell, items[0]) && Among(eng, cell, items[1..], b)
  {
    var rest := items[1..];
    assert forall i | 0 <= i < |rest| :: rest[i] == items[i + 1];
    if b && Among(eng, cell, items, b) && !EqualTo(eng, cell, items[0]) {
      var i :| 0 <= i < |items| && EqualTo(eng, cell, items[i]);
      assert EqualTo(eng, cell, rest[i - 1]);
    }
    if !b && OtherThan(eng, cell, items[0]) && Among(eng, cell, rest, b) {
      forall i | 0 <= i < |items| ensures OtherThan(eng, cell, items[i]) {
        assert i > 0 ==> OtherThan(eng, cell, rest[i - 1]);
      }
    }
  }

  /** Some element of the list has the property, seen from its head. */
  lemma SomeCons<T>(s: seq<T>, p: T -> bool)
    requires s != []
    ensures (exists i | 0 <= i < |s| :: p(s[i])) <==> p(s[0]) || exists i | 0 <= i < |s[1..]| :: p(s[1..][i])
  {
    if exists i | 0 <= i < |s| :: p(s[i]) {
      var i :| 0 <= i < |s| && p(s[i]);
      if i > 0 {
        assert p(s[1..][i - 1]);
      }
    }
    if exists i | 0 <= i < |s[1..]| :: p(s[1..][i]) {
      var i :| 0 <= i < |s[1..]| && p(s[1..][i]);
      assert p(s[i + 1]);
    }
  }

  lemma EveryCons<T>(s: seq<T>, p: T -> bool)
    requires s != []
    ensures (forall i | 0 <= i < |s| :: p(s[i])) <==> p(s[0]) && forall i | 0 <= i < |s[1..]| :: p(s[1..][i])
  {
    SomeCons(s, x => !p(x));
  }

  /** The three-valued result is True exactly where `yes` holds and False exactly where `no` does. */
  predicate Is3(t: Tri, yes: bool, no: bool) {
    (t == True <==> yes) && (t == False <==> no)
  }

  lemma {:induction false} OperandDecided(eng: Engine, row: Row, schema: Schema, field: string, col: string, x: Operand)
    requires Column(schema, field) == Ok(col)
    ensures Is3(DenoteOperand(eng, row, schema, field, x),
                DecidesOperand(eng, schema, field, Cell(row, col), x, true),
                DecidesOperand(eng, schema, field, Cell(row, col), x, false))
    decreases x, 0
  {
    if x.Ops? {
      OpsDecided(eng, row, schema, field, col, x.ops);
    }
  }

  lemma {:induction false} OpsDecided(eng: Engine, row: Row, schema: Schema, field: string, col: string, ops: seq<Op>)
    requires Column(schema, field) == Ok(col)
    ensures var cell := Cell(row, col);
            Is3(DenoteOps(eng, row, schema, field, cell, ops),
                forall i | 0 <= i < |ops| :: DecidesOp(eng, schema, field, cell, ops[i], true),
                exists i | 0 <= i < |ops| :: DecidesOp(eng, schema, field, cell, ops[i], false))
    decreases ops, 2
  {
    if ops != [] {
      var cell := Cell(row, col);
      OpDecided(eng, row, schema, field, col, ops[0]);
      OpsDecided(eng, row, schema, field, col, ops[1..]);
      EveryCons(ops, op => DecidesOp(eng, schema, field, cell, op, true));
      SomeCons(ops, op => DecidesOp(eng, schema, field, cell, op, false));
    }
  }

  lemma {:induction false} OpDecided(eng: Engine, row: Row, schema: Schema, field: string, col: string, op: Op)
    requires Column(schema, field) == Ok(col)
    ensures var cell := Cell(row, col);
            Is3(DenoteOp(eng, row, schema, field, cell, op),
                DecidesOp(eng, schema, field, cell, op, true), DecidesOp(eng, schema, field, cell, op, false))
    decreases op, 1
  {
    var cell := Cell(row, col);
    match op
    case In(items) =>
      AmongIff(eng, cell, items, true);
      AmongIff(eng, cell, items, false);
    case Nin(items) =>
      AmongIff(eng, cell, items, true);
      AmongIff(eng, cell, items, false);
    case Complement(x) =>
      OperandDecided(eng, row, schema, field, col, x);
    case _ =>
  }

  lemma {:induction false} FilterDecided(eng: Engine, row: Row, schema: Schema, f: Filter)
    requires Fault(schema, f).None?
    ensures Is3(Denote(eng, row, schema, f), Decides(eng, row, schema, f, true), Decides(eng, row, schema, f, false))
    decreases f, 3
  {
    EntriesDecided(eng, row, schema, f.entries);
  }

  lemma {:induction false} EntriesDecided(eng: Engine, row: Row, schema: Schema, es: seq<Entry>)
    requires FaultEntries(schema, es).None?
    ensures Is3(DenoteEntries(eng, row, schema, es),
                forall i | 0 <= i < |es| :: DecidesEntry(eng, row, schema, es[i], true),
                exists i | 0 <= i < |es| :: DecidesEntry(eng, row, schema, es[i], false))
    decreases es, 2
  {
    if es != [] {
      EntryDecided(eng, row, schema, es[0]);
      EntriesDecided(eng, row, schema, es[1..]);
      EveryCons(es, e => DecidesEntry(eng, row, schema, e, true));
      SomeCons(es, e => DecidesEntry(eng, row, schema, e, false));
    }
  }

  lemma {:induction false} EntryDecided(eng: Engine, row: Row, schema: Schema, e: Entry)
    requires FaultEntry(schema, e).None?
    ensures Is3(DenoteEntry(eng, row, schema, e),
                DecidesEntry(eng, row, schema, e, true), DecidesEntry(eng, row, schema, e, false))
    decreases e, 1
  {
    match e
    case Field(name, x) =>
      var col := Column(schema, name).value;
      assert Names(schema, name, col);
      OperandDecided(eng, row, schema, name, col, x);
    case Or(subs) => AnyDecided(eng, row, schema, subs);
    case And(subs) => AllDecided(eng, row, schema, subs);
  }

  lemma {:induction false} AllDecided(eng: Engine, row: Row, schema: Schema, subs: seq<Filter>)
    requires FaultSubs(schema, subs).None?
    ensures Is3(DenoteAll(eng, row, schema, subs),
                forall i | 0 <= i < |subs| :: Decides(eng, row, schema, subs[i], true),
                exists i | 0 <= i < |subs| :: Decides(eng, row, schema, subs[i], false))
    decreases subs, 4
  {
    if subs != [] {
      FilterDecided(eng, row, schema, subs[0]);
      AllDecided(eng, row, schema, subs[1..]);
      EveryCons(subs, f => Decides(eng, row, schema, f, true));
      SomeCons(subs, f => Decides(eng, row, schema, f, false));
    }
  }

  lemma {:induction false} AnyDecided(eng: Engine, row: Row, schema: Schema, subs: seq<Filter>)
    requires FaultSubs(schema, subs).None?
    ensures Is3(DenoteAny(eng, row, schema, subs),
                exists i | 0 <= i < |subs| :: Decides(eng, row, schema, subs[i], true),
                forall i | 0 <= i < |subs| :: Decides(eng, row, schema, subs[i], false))
    decreases subs, 4
  {
    if subs != [] {
      FilterDecided(eng, row, schema, subs[0]);
      AnyDecided(eng, row, schema, subs[1..]);
      EveryCons(subs, f => Decides(eng, row, schema, f, false));
      SomeCons(subs, f => Decides(eng, row, schema, f, true));
    }
  }

  // ---- Main result ----

  /**
   The text compiled from a readable, plain filter selects exactly the rows that
   certainly meet the filter, and its negation selects exactly those that certainly
   fail it, for any parameters before and after its own.
   */
  lemma SelectsExactlyWhen(eng: Engine, row: Row, schema: Schema, f: Filter, before: seq<Param>, after: seq<Param>)
    requires Fault(schema, f).None? && Readable(f) && Plain(f)
    ensures var r := CompileFilter(schema, f, |before|);
            && r.Ok?
            && var t := Meaning(Env(eng, row, before + r.value.pushed + after), Join(RenderAll(r.value.clauses), AND));
               t.Some? && Is3(t.value, Decides(eng, row, schema, f, true), Decides(eng, row, schema, f, false))
  {
    CompileFails(schema, f, |before|);
    WherePreservesMeaning(eng, row, schema, f, before, after);
    FilterDecided(eng, row, schema, f);
  }
}
