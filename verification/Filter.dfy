/**
 The filter compiler: Mongo-style filters to a WHERE text with numbered
 placeholders and one shared parameter list. `Compile*` says which clause tree
 and which parameters a filter yields; `Denote*` says what the filter means on a
 row, without SQL.
 */
module Filter {
  import opened Prelude
  import opened Sql

  // ---- Filters ----

  /** One `$op: operand` pair, with the operand already at the type the source casts it to. */
  datatype Op =
    | Relation(rel: CmpOp, v: Value)                   // $gt $gte $lt $lte
    | Ne(v: Value)
    | Exists(present: bool)
    | In(items: seq<Value>)
    | Nin(items: seq<Value>)
    | Regex(pattern: string, insensitive: bool)
    | Size(n: int)
    | Complement(x: Operand)                           // $not
    | Unsupported(name: string)

  /** The value of a field: a plain operator object, or anything else. */
  datatype Operand = Is(v: Value) | Ops(ops: seq<Op>)

  datatype Entry =
    | Field(name: string, x: Operand)
    | Or(subs: seq<Filter>)
    | And(subs: seq<Filter>)

  /** A filter object: its entries in insertion order. */
  datatype Filter = Filter(entries: seq<Entry>)

  /** The field-to-column table and the set of jsonb fields. */
  datatype Schema = Schema(columns: map<string, string>, jsonb: set<string>)

  function Column(schema: Schema, field: string): Result<string> {
    if field == "_id" then Ok("id")
    else if field in schema.columns then Ok(schema.columns[field])
    else Err("Unknown field: " + field)
  }

  /** `$size` of an operator object, if it has one. */
  function SizeOf(ops: seq<Op>): Option<int> {
    if ops == [] then None
    else if ops[0].Size? then Some(ops[0].n)
    else SizeOf(ops[1..])
  }

  // ---- Compilation ----

  /** Clauses emitted and parameters pushed. */
  datatype Compiled = Compiled(clauses: seq<Clause>, pushed: seq<Param>)

  function Append(a: Compiled, b: Compiled): Compiled {
    Compiled(a.clauses + b.clauses, a.pushed + b.pushed)
  }

  function One(e: Clause, pushed: seq<Param>): Compiled {
    Compiled([e], pushed)
  }

  /** The compilation of a field's value when `n` parameters are already in the list. */
  function CompileOperand(schema: Schema, field: string, x: Operand, n: nat): (r: Result<Compiled>)
    ensures r.Ok? ==> |r.value.clauses| == 1
    decreases x, 0
  {
    var col :- Column(schema, field);
    match x
    case Ops(ops) =>
      var c :- CompileOps(schema, field, col, ops, n);
      Ok(One(Conj(c.clauses), c.pushed))
    case Is(v) =>
      if field in schema.jsonb then
        if v.List? then Ok(One(Leaf(HasJson(col, n + 1)), [Json(v.items)]))
        else Ok(One(Leaf(HasText(col, n + 1)), [Bind(v)]))
      else Ok(One(Leaf(Cmp(col, Eq, n + 1)), [Bind(v)]))
  }

  function CompileOps(schema: Schema, field: string, col: string, ops: seq<Op>, n: nat): (r: Result<Compiled>)
    ensures r.Ok? ==> |r.value.clauses| == |ops|
    decreases ops, 2
  {
    if ops == [] then Ok(Compiled([], []))
    else
      var h :- CompileOp(schema, field, col, ops[0], n);
      var t :- CompileOps(schema, field, col, ops[1..], n + |h.pushed|);
      Ok(Append(h, t))
  }

  function CompileOp(schema: Schema, field: string, col: string, op: Op, n: nat): (r: Result<Compiled>)
    ensures r.Ok? ==> |r.value.clauses| == 1
    decreases op, 1
  {
    match op
    case Complement(x) =>
      if x.Ops? && SizeOf(x.ops).Some? then
        Ok(One(Leaf(Length(col, false, SizeOf(x.ops).value)), []))
      else
        var c :- CompileOperand(schema, field, x, n);
        Ok(One(Negate(c.clauses[0]), c.pushed))
    case Relation(rel, v) => Ok(One(Leaf(Cmp(col, rel, n + 1)), [Bind(v)]))
    case Ne(v) =>
      if v.Null? then Ok(One(Leaf(NullTest(col, false)), []))
      else Ok(One(Leaf(Distinct(col, n + 1)), [Bind(v)]))
    case Exists(present) => Ok(One(Leaf(NullTest(col, !present)), []))
    case In(items) =>
      if items == [] then Ok(One(Leaf(Literal(false)), []))
      else Ok(One(Leaf(AnyOf(col, n + 1)), [Bind(List(items))]))
    case Nin(items) =>
      if items == [] then Ok(One(Leaf(Literal(true)), []))
      else Ok(One(Negate(Leaf(AnyOf(col, n + 1))), [Bind(List(items))]))
    case Regex(pattern, insensitive) =>
      Ok(One(Leaf(Matches(col, n + 1, insensitive)), [Bind(Text(pattern))]))
    case Size(size) => Ok(One(Leaf(Length(col, true, size)), []))
    case Unsupported(name) => Err("Unsupported operator: " + name)
  }

  function CompileFilter(schema: Schema, f: Filter, n: nat): Result<Compiled>
    decreases f, 3
  {
    CompileEntries(schema, f.entries, n)
  }

  function CompileEntries(schema: Schema, es: seq<Entry>, n: nat): Result<Compiled>
    decreases es, 2
  {
    if es == [] then Ok(Compiled([], []))
    else
      var h :- CompileEntry(schema, es[0], n);
      var t :- CompileEntries(schema, es[1..], n + |h.pushed|);
      Ok(Append(h, t))
  }

  function CompileEntry(schema: Schema, e: Entry, n: nat): Result<Compiled>
    decreases e, 1
  {
    match e
    case Field(name, x) => CompileOperand(schema, name, x, n)
    case Or(subs) =>
      var c :- CompileSubs(schema, subs, n);
      Ok(Compiled(if subs == [] then [] else [Disj(c.clauses)], c.pushed))
    case And(subs) =>
      var c :- CompileSubs(schema, subs, n);
      Ok(Compiled(NonEmpty(c.clauses), c.pushed))
  }

  /** One parenthesised clause list per member of `$or` or `$and`; `Conj([])` is `()`. */
  function CompileSubs(schema: Schema, subs: seq<Filter>, n: nat): (r: Result<Compiled>)
    ensures r.Ok? ==> |r.value.clauses| == |subs|
    decreases subs, 4
  {
    if subs == [] then Ok(Compiled([], []))
    else
      var h :- CompileFilter(schema, subs[0], n);
      var t :- CompileSubs(schema, subs[1..], n + |h.pushed|);
      Ok(Append(One(Conj(h.clauses), h.pushed), t))
  }

  function NonEmpty(es: seq<Clause>): seq<Clause> {
    if es == [] then []
    else (if es[0] == Conj([]) then [] else [es[0]]) + NonEmpty(es[1..])
  }

  // ---- Direct meaning ----

  function DenoteOperand(eng: Engine, row: Row, schema: Schema, field: string, x: Operand): Tri
    decreases x, 0
  {
    var col := Column(schema, field);
    var cell := if col.Ok? then Cell(row, col.value) else Null;
    match x
    case Ops(ops) => DenoteOps(eng, row, schema, field, cell, ops)
    case Is(v) =>
      if field in schema.jsonb then Contains(eng, cell, if v.List? then Json(v.items) else Bind(v))
      else Compare(eng, Eq, cell, v)
  }

  function DenoteOps(eng: Engine, row: Row, schema: Schema, field: string, cell: Value, ops: seq<Op>): Tri
    decreases ops, 2
  {
    if ops == [] then True
    else And3(DenoteOp(eng, row, schema, field, cell, ops[0]),
              DenoteOps(eng, row, schema, field, cell, ops[1..]))
  }

  function DenoteOp(eng: Engine, row: Row, schema: Schema, field: string, cell: Value, op: Op): Tri
    decreases op, 1
  {
    match op
    case Relation(rel, v) => Compare(eng, rel, cell, v)
    case Ne(v) => Of(!Same(eng, cell, v))
    case Exists(present) => Of(!IsNull(cell) == present)
    case In(items) => EqualsAny(eng, cell, items)
    case Nin(items) => Not3(EqualsAny(eng, cell, items))
    case Regex(pattern, insensitive) => RegexMatch(eng, cell, pattern, insensitive)
    case Size(n) => LengthIs(eng, cell, n)
    case Complement(x) => Not3(DenoteOperand(eng, row, schema, field, x))
    case Unsupported(_) => Unknown
  }

  function Denote(eng: Engine, row: Row, schema: Schema, f: Filter): Tri
    decreases f, 3
  {
    DenoteEntries(eng, row, schema, f.entries)
  }

  function DenoteEntries(eng: Engine, row: Row, schema: Schema, es: seq<Entry>): Tri
    decreases es, 2
  {
    if es == [] then True
    else And3(DenoteEntry(eng, row, schema, es[0]), DenoteEntries(eng, row, schema, es[1..]))
  }

  /** An empty `$or` puts no condition on the row. */
  function DenoteEntry(eng: Engine, row: Row, schema: Schema, e: Entry): Tri
    decreases e, 1
  {
    match e
    case Field(name, x) => DenoteOperand(eng, row, schema, name, x)
    case Or(subs) => if subs == [] then True else DenoteAny(eng, row, schema, subs)
    case And(subs) => DenoteAll(eng, row, schema, subs)
  }

  function DenoteAny(eng: Engine, row: Row, schema: Schema, subs: seq<Filter>): Tri
    decreases subs, 4
  {
    if subs == [] then False
    else Or3(Denote(eng, row, schema, subs[0]), DenoteAny(eng, row, schema, subs[1..]))
  }

  function DenoteAll(eng: Engine, row: Row, schema: Schema, subs: seq<Filter>): Tri
    decreases subs, 4
  {
    if subs == [] then True
    else And3(Denote(eng, row, schema, subs[0]), DenoteAll(eng, row, schema, subs[1..]))
  }

  // ---- Which filters compile to readable text ----

  /** The filter compiles to the empty text. */
  predicate Vacuous(f: Filter)
    decreases f, 3
  {
    VacuousEntries(f.entries)
  }

  predicate VacuousEntries(es: seq<Entry>)
    decreases es, 2
  {
    es == [] || (VacuousEntry(es[0]) && VacuousEntries(es[1..]))
  }

  predicate VacuousEntry(e: Entry)
    decreases e, 1
  {
    match e
    case Field(_, _) => false
    case Or(subs) => subs == []
    case And(subs) => VacuousAll(subs)
  }

  predicate VacuousAll(subs: seq<Filter>)
    decreases subs, 4
  {
    subs == [] || (Vacuous(subs[0]) && VacuousAll(subs[1..]))
  }

  /** No empty operator object is compiled. */
  predicate ReadableOperand(x: Operand)
    decreases x, 0
  {
    x.Ops? ==> x.ops != [] && ReadableOps(x.ops)
  }

  predicate ReadableOps(ops: seq<Op>)
    decreases ops, 2
  {
    ops == [] || (ReadableOp(ops[0]) && ReadableOps(ops[1..]))
  }

  predicate ReadableOp(op: Op)
    decreases op, 1
  {
    op.Complement? && !(op.x.Ops? && SizeOf(op.x.ops).Some?) ==> ReadableOperand(op.x)
  }

  /** ... and no `$or` has a member that compiles to the empty text. */
  predicate Readable(f: Filter)
    decreases f, 3
  {
    ReadableEntries(f.entries)
  }

  predicate ReadableEntries(es: seq<Entry>)
    decreases es, 2
  {
    es == [] || (ReadableEntry(es[0]) && ReadableEntries(es[1..]))
  }

  predicate ReadableEntry(e: Entry)
    decreases e, 1
  {
    match e
    case Field(_, x) => ReadableOperand(x)
    case Or(subs) => ReadableAll(subs) && NoneVacuous(subs)
    case And(subs) => ReadableAll(subs)
  }

  predicate ReadableAll(subs: seq<Filter>)
    decreases subs, 4
  {
    subs == [] || (Readable(subs[0]) && ReadableAll(subs[1..]))
  }

  predicate NoneVacuous(subs: seq<Filter>) {
    subs == [] || (!Vacuous(subs[0]) && NoneVacuous(subs[1..]))
  }

  /** An operator that adds nothing to `$size: n`. */
  predicate Redundant(op: Op, n: int) {
    op == Size(n) || op == Nin([])
  }

  predicate AllRedundant(ops: seq<Op>, n: int) {
    forall i | 0 <= i < |ops| :: Redundant(ops[i], n)
  }

  /** Beside `$size` under `$not` there is nothing that matters: the source drops the other operators. */
  predicate PlainOperand(x: Operand)
    decreases x, 0
  {
    x.Ops? ==> PlainOps(x.ops)
  }

  predicate PlainOps(ops: seq<Op>)
    decreases ops, 2
  {
    ops == [] || (PlainOp(ops[0]) && PlainOps(ops[1..]))
  }

  predicate PlainOp(op: Op)
    decreases op, 1
  {
    op.Complement? ==>
      if op.x.Ops? && SizeOf(op.x.ops).Some? then AllRedundant(op.x.ops, SizeOf(op.x.ops).value)
      else PlainOperand(op.x)
  }

  predicate Plain(f: Filter)
    decreases f, 3
  {
    PlainEntries(f.entries)
  }

  predicate PlainEntries(es: seq<Entry>)
    decreases es, 2
  {
    es == [] || (PlainEntry(es[0]) && PlainEntries(es[1..]))
  }

  predicate PlainEntry(e: Entry)
    decreases e, 1
  {
    match e
    case Field(_, x) => PlainOperand(x)
    case Or(subs) => PlainAll(subs)
    case And(subs) => PlainAll(subs)
  }

  predicate PlainAll(subs: seq<Filter>)
    decreases subs, 4
  {
    subs == [] || (Plain(subs[0]) && PlainAll(subs[1..]))
  }
}
