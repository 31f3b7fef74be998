/**
 The recursive builders of the filter compiler, as they run: every builder
 pushes onto the one parameter list it was handed and returns text.
 */
module FilterBuilder {
  import opened Prelude
  import opened Sql
  import opened Filter

  /** The shared parameter array. */
  class ParamList {
    var values: seq<Param>

    constructor (initial: seq<Param>)
      ensures values == initial
    {
      values := initial;
    }

    /** Returns the number of the pushed parameter's placeholder. */
    method Push(p: Param) returns (k: nat)
      modifies this
      ensures values == old(values) + [p] && k == |values|
    {
      k := |values| + 1;
      values := values + [p];
    }
  }

  /** What is left of a compilation when `done` has been emitted already. */
  ghost function Then(done: Compiled, rest: Result<Compiled>): Result<Compiled> {
    if rest.Err? then rest else Ok(Append(done, rest.value))
  }

  /**
   A builder that should yield `c` with text `text` has done so: parameters are
   only appended, also when an exception ends the build, and on success they are
   the ones `c` pushes.
   */
  ghost predicate Built(c: Result<Compiled>, r: Result<seq<Token>>, text: seq<Token>,
                        before: seq<Param>, after: seq<Param>)
  {
    && before <= after
    && (c.Err? ==> r == Err(c.error))
    && (c.Ok? ==> r == Ok(text) && after == before + c.value.pushed)
  }

  lemma ThenThen(a: Compiled, h: Compiled, rest: Result<Compiled>)
    ensures Then(a, Then(h, rest)) == Then(Append(a, h), rest)
  {
    if rest.Ok? {
      assert a.clauses + (h.clauses + rest.value.clauses) == (a.clauses + h.clauses) + rest.value.clauses;
      assert a.pushed + (h.pushed + rest.value.pushed) == (a.pushed + h.pushed) + rest.value.pushed;
    }
  }

  lemma ThenNothing(a: Compiled)
    ensures Append(a, Compiled([], [])) == a
    ensures Append(Compiled([], []), a) == a
  {
  }

  lemma {:induction false} RenderAllAppend(a: seq<Clause>, b: seq<Clause>)
    ensures RenderAll(a + b) == RenderAll(a) + RenderAll(b)
  {
    if a == [] {
      assert a + b == b;
    } else {
      assert (a + b)[1..] == a[1..] + b;
      RenderAllAppend(a[1..], b);
    }
  }

  lemma RenderOne(e: Clause)
    ensures RenderAll([e]) == [Render(e)]
  {
    assert [e][1..] == [];
  }

  lemma RenderSnoc(es: seq<Clause>, last: seq<Clause>)
    requires |last| == 1
    ensures RenderAll(es + last) == RenderAll(es) + [Render(last[0])]
  {
    assert last == [last[0]];
    RenderAllAppend(es, last);
    RenderOne(last[0]);
  }

  lemma AppendAssoc(a: seq<Param>, b: seq<Param>, c: seq<Param>)
    ensures a + b + c == a + (b + c)
  {
  }

  // One turn of each loop: an exception ends it, or one more part is done.

  lemma OpsStep(schema: Schema, field: string, col: string, ops: seq<Op>, i: nat, m: nat, done: Compiled)
    requires i < |ops|
    ensures var h := CompileOp(schema, field, col, ops[i], m);
            var rest := Then(done, CompileOps(schema, field, col, ops[i..], m));
            && (h.Err? ==> rest == Err(h.error))
            && (h.Ok? ==> rest == Then(Append(done, h.value),
                                       CompileOps(schema, field, col, ops[i + 1..], m + |h.value.pushed|)))
  {
    assert ops[i..][0] == ops[i] && ops[i..][1..] == ops[i + 1..];
    var h := CompileOp(schema, field, col, ops[i], m);
    if h.Ok? {
      ThenThen(done, h.value, CompileOps(schema, field, col, ops[i + 1..], m + |h.value.pushed|));
    }
  }

  lemma EntriesStep(schema: Schema, es: seq<Entry>, i: nat, m: nat, done: Compiled)
    requires i < |es|
    ensures var h := CompileEntry(schema, es[i], m);
            var rest := Then(done, CompileEntries(schema, es[i..], m));
            && (h.Err? ==> rest == Err(h.error))
            && (h.Ok? ==> rest == Then(Append(done, h.value),
                                       CompileEntries(schema, es[i + 1..], m + |h.value.pushed|)))
  {
    assert es[i..][0] == es[i] && es[i..][1..] == es[i + 1..];
    var h := CompileEntry(schema, es[i], m);
    if h.Ok? {
      ThenThen(done, h.value, CompileEntries(schema, es[i + 1..], m + |h.value.pushed|));
    }
  }

  lemma SubsStep(schema: Schema, subs: seq<Filter>, i: nat, m: nat, done: Compiled)
    requires i < |subs|
    ensures var c := CompileFilter(schema, subs[i], m);
            var rest := Then(done, CompileSubs(schema, subs[i..], m));
            && (c.Err? ==> rest == Err(c.error))
            && (c.Ok? ==> rest == Then(Append(done, One(Conj(c.value.clauses), c.value.pushed)),
                                       CompileSubs(schema, subs[i + 1..], m + |c.value.pushed|)))
  {
    assert subs[i..][0] == subs[i] && subs[i..][1..] == subs[i + 1..];
    var c := CompileFilter(schema, subs[i], m);
    if c.Ok? {
      ThenThen(done, One(Conj(c.value.clauses), c.value.pushed),
               CompileSubs(schema, subs[i + 1..], m + |c.value.pushed|));
    }
  }

  /** Text of an AND-list: empty exactly for the empty list. */
  lemma JoinedEmpty(es: seq<Clause>)
    ensures Join(RenderAll(es), AND) == [] <==> es == []
  {
    if es != [] {
      assert RenderAll(es)[0] == Render(es[0]);
    }
  }

  ghost function Clauses(c: Result<Compiled>): seq<Clause> {
    if c.Ok? then c.value.clauses else []
  }

  method BuildExpr(schema: Schema, field: string, value: Operand, params: ParamList) returns (r: Result<seq<Token>>)
    modifies params
    ensures var c := CompileOperand(schema, field, value, old(|params.values|));
            Built(c, r, if c.Ok? then Render(c.value.clauses[0]) else [], old(params.values), params.values)
    decreases value, 1
  {
    var col := Column(schema, field);
    if col.Err? {
      return Err(col.error);
    }
    if value.Ops? {
      r := BuildOperatorExpr(schema, field, value.ops, params);
    } else if value.v.List? && field in schema.jsonb {
      var k := params.Push(Json(value.v.items));
      r := Ok(Render(Leaf(HasJson(col.value, k))));
    } else if field in schema.jsonb {
      var k := params.Push(Bind(value.v));
      r := Ok(Render(Leaf(HasText(col.value, k))));
    } else {
      var k := params.Push(Bind(value.v));
      r := Ok(Render(Leaf(Cmp(col.value, Eq, k))));
    }
  }

  method BuildOperatorExpr(schema: Schema, field: string, ops: seq<Op>, params: ParamList)
    returns (r: Result<seq<Token>>)
    modifies params
    ensures var c := CompileOperand(schema, field, Ops(ops), old(|params.values|));
            Built(c, r, if c.Ok? then Render(c.value.clauses[0]) else [], old(params.values), params.values)
    decreases ops, 2
  {
    var col := Column(schema, field);
    if col.Err? {
      return Err(col.error);
    }
    var clauses := BuildOps(schema, field, col.value, ops, params);
    if clauses.Err? {
      return Err(clauses.error);
    }
    return Ok([LParen] + Join(clauses.value, AND) + [RParen]);
  }

  /** The loop over one operator object: the clauses of its operators, in order. */
  method BuildOps(schema: Schema, field: string, col: string, ops: seq<Op>, params: ParamList)
    returns (r: Result<seq<seq<Token>>>)
    modifies params
    ensures var c := CompileOps(schema, field, col, ops, old(|params.values|));
            && old(params.values) <= params.values
            && (c.Err? ==> r == Err(c.error))
            && (c.Ok? ==> r == Ok(RenderAll(c.value.clauses)) && params.values == old(params.values) + c.value.pushed)
    decreases ops, 1
  {
    ghost var start := params.values;
    ghost var all := CompileOps(schema, field, col, ops, |start|);
    var clauses: seq<seq<Token>> := [];
    ghost var done := Compiled([], []);
    assert ops[0..] == ops;
    if all.Ok? {
      ThenNothing(all.value);
    }
    for i := 0 to |ops|
      invariant params.values == start + done.pushed
      invariant clauses == RenderAll(done.clauses)
      invariant all == Then(done, CompileOps(schema, field, col, ops[i..], |params.values|))
    {
      ghost var m := |params.values|;
      OpsStep(schema, field, col, ops, i, m, done);
      var text := BuildOp(schema, field, col, ops[i], params);
      if text.Err? {
        return Err(text.error);
      }
      ghost var h := CompileOp(schema, field, col, ops[i], m).value;
      RenderSnoc(done.clauses, h.clauses);
      AppendAssoc(start, done.pushed, h.pushed);
      clauses := clauses + [text.value];
      done := Append(done, h);
    }
    assert ops[|ops|..] == [];
    ThenNothing(done);
    return Ok(clauses);
  }

  /** The body of the loop over one operator object: the clause of one operator. */
  method BuildOp(schema: Schema, field: string, col: string, op: Op, params: ParamList) returns (r: Result<seq<Token>>)
    modifies params
    ensures var c := CompileOp(schema, field, col, op, old(|params.values|));
            Built(c, r, if c.Ok? then Render(c.value.clauses[0]) else [], old(params.values), params.values)
    decreases op, 1
  {
    match op
    case Complement(x) =>
      if x.Ops? && SizeOf(x.ops).Some? {
        r := Ok(Render(Leaf(Length(col, false, SizeOf(x.ops).value))));
      } else {
        var inner := BuildExpr(schema, field, x, params);
        if inner.Err? {
          return inner;
        }
        r := Ok([LParen, NOT] + inner.value + [RParen]);
      }
    case Relation(rel, v) =>
      var k := params.Push(Bind(v));
      r := Ok(Render(Leaf(Cmp(col, rel, k))));
    case Ne(v) =>
      if v.Null? {
        r := Ok(Render(Leaf(NullTest(col, false))));
      } else {
        var k := params.Push(Bind(v));
        r := Ok(Render(Leaf(Distinct(col, k))));
      }
    case Exists(present) =>
      r := Ok(Render(Leaf(NullTest(col, !present))));
    case In(items) =>
      if items == [] {
        r := Ok(Render(Leaf(Literal(false))));
      } else {
        var k := params.Push(Bind(List(items)));
        r := Ok(Render(Leaf(AnyOf(col, k))));
      }
    case Nin(items) =>
      if items == [] {
        r := Ok(Render(Leaf(Literal(true))));
      } else {
        var k := params.Push(Bind(List(items)));
        r := Ok(Render(Negate(Leaf(AnyOf(col, k)))));
      }
    case Regex(pattern, insensitive) =>
      var k := params.Push(Bind(Text(pattern)));
      r := Ok(Render(Leaf(Matches(col, k, insensitive))));
    case Size(n) =>
      r := Ok(Render(Leaf(Length(col, true, n))));
    case Unsupported(name) =>
      r := Err("Unsupported operator: " + name);
  }

  /** The WHERE text of a filter; the empty text for an empty filter. */
  method BuildWhere(schema: Schema, f: Filter, params: ParamList) returns (r: Result<seq<Token>>)
    modifies params
    ensures var c := CompileFilter(schema, f, old(|params.values|));
            Built(c, r, Join(RenderAll(Clauses(c)), AND), old(params.values), params.values)
    decreases f, 3
  {
    ghost var start := params.values;
    ghost var all := CompileEntries(schema, f.entries, |start|);
    var es := f.entries;
    var clauses: seq<seq<Token>> := [];
    ghost var done := Compiled([], []);
    assert es[0..] == es;
    if all.Ok? {
      ThenNothing(all.value);
    }
    for i := 0 to |es|
      invariant params.values == start + done.pushed
      invariant clauses == RenderAll(done.clauses)
      invariant all == Then(done, CompileEntries(schema, es[i..], |params.values|))
    {
      ghost var m := |params.values|;
      EntriesStep(schema, es, i, m, done);
      var parts := BuildEntry(schema, es[i], params);
      if parts.Err? {
        return Err(parts.error);
      }
      ghost var h := CompileEntry(schema, es[i], m).value;
      RenderAllAppend(done.clauses, h.clauses);
      AppendAssoc(start, done.pushed, h.pushed);
      clauses := clauses + parts.value;
      done := Append(done, h);
    }
    assert es[|es|..] == [];
    ThenNothing(done);
    return Ok(Join(clauses, AND));
  }

  /** The body of the loop over one filter: the clauses of one entry. */
  method BuildEntry(schema: Schema, e: Entry, params: ParamList) returns (r: Result<seq<seq<Token>>>)
    modifies params
    ensures var c := CompileEntry(schema, e, old(|params.values|));
            && old(params.values) <= params.values
            && (c.Err? ==> r == Err(c.error))
            && (c.Ok? ==> r == Ok(RenderAll(c.value.clauses)) && params.values == old(params.values) + c.value.pushed)
    decreases e, 1
  {
    match e
    case Field(name, x) =>
      var text := BuildExpr(schema, name, x, params);
      ghost var c := CompileOperand(schema, name, x, old(|params.values|));
      if text.Err? {
        return Err(text.error);
      }
      RenderOne(c.value.clauses[0]);
      assert c.value.clauses == [c.value.clauses[0]];
      return Ok([text.value]);
    case Or(subs) =>
      var members := BuildOrMembers(schema, subs, params);
      if members.Err? {
        return members;
      }
      if members.value == [] {
        return Ok([]);
      }
      ghost var c := CompileSubs(schema, subs, old(|params.values|));
      RenderOne(Disj(c.value.clauses));
      return Ok([[LParen] + Join(members.value, OR) + [RParen]]);
    case And(subs) =>
      r := BuildAndMembers(schema, subs, params);
  }

  /** The loop over the members of `$or`: an empty member still leaves its parentheses. */
  method BuildOrMembers(schema: Schema, subs: seq<Filter>, params: ParamList) returns (r: Result<seq<seq<Token>>>)
    modifies params
    ensures var c := CompileSubs(schema, subs, old(|params.values|));
            && old(params.values) <= params.values
            && (c.Err? ==> r == Err(c.error))
            && (c.Ok? ==>
                && r == Ok(RenderAll(c.value.clauses))
                && params.values == old(params.values) + c.value.pushed)
    decreases subs, 4
  {
    ghost var start := params.values;
    ghost var all := CompileSubs(schema, subs, |start|);
    var parts: seq<seq<Token>> := [];
    ghost var done := Compiled([], []);
    assert subs[0..] == subs;
    if all.Ok? {
      ThenNothing(all.value);
    }
    for i := 0 to |subs|
      invariant params.values == start + done.pushed
      invariant parts == RenderAll(done.clauses)
      invariant all == Then(done, CompileSubs(schema, subs[i..], |params.values|))
    {
      ghost var m := |params.values|;
      SubsStep(schema, subs, i, m, done);
      var sub := BuildWhere(schema, subs[i], params);
      if sub.Err? {
        return Err(sub.error);
      }
      ghost var c := CompileFilter(schema, subs[i], m).value;
      ghost var h := One(Conj(c.clauses), c.pushed);
      OrStep(done.clauses, c.clauses, sub.value);
      AppendAssoc(start, done.pushed, h.pushed);
      parts := parts + [[LParen] + sub.value + [RParen]];
      done := Append(done, h);
    }
    assert subs[|subs|..] == [];
    ThenNothing(done);
    return Ok(parts);
  }

  /** The loop over the members of `$and`: an empty member is skipped. */
  method BuildAndMembers(schema: Schema, subs: seq<Filter>, params: ParamList) returns (r: Result<seq<seq<Token>>>)
    modifies params
    ensures var c := CompileSubs(schema, subs, old(|params.values|));
            && old(params.values) <= params.values
            && (c.Err? ==> r == Err(c.error))
            && (c.Ok? ==>
                && r == Ok(RenderAll(NonEmpty(c.value.clauses)))
                && params.values == old(params.values) + c.value.pushed)
    decreases subs, 4
  {
    ghost var start := params.values;
    ghost var all := CompileSubs(schema, subs, |start|);
    var parts: seq<seq<Token>> := [];
    ghost var done := Compiled([], []);
    assert subs[0..] == subs;
    if all.Ok? {
      ThenNothing(all.value);
    }
    for i := 0 to |subs|
      invariant params.values == start + done.pushed
      invariant parts == RenderAll(NonEmpty(done.clauses))
      invariant all == Then(done, CompileSubs(schema, subs[i..], |params.values|))
    {
      ghost var m := |params.values|;
      SubsStep(schema, subs, i, m, done);
      var sub := BuildWhere(schema, subs[i], params);
      if sub.Err? {
        return Err(sub.error);
      }
      ghost var c := CompileFilter(schema, subs[i], m).value;
      ghost var h := One(Conj(c.clauses), c.pushed);
      AndStep(done.clauses, c.clauses, sub.value);
      AppendAssoc(start, done.pushed, h.pushed);
      if sub.value != [] {
        parts := parts + [[LParen] + sub.value + [RParen]];
      }
      done := Append(done, h);
    }
    assert subs[|subs|..] == [];
    ThenNothing(done);
    return Ok(parts);
  }

  lemma OrStep(done: seq<Clause>, member: seq<Clause>, text: seq<Token>)
    requires text == Join(RenderAll(member), AND)
    ensures RenderAll(done + [Conj(member)]) == RenderAll(done) + [[LParen] + text + [RParen]]
  {
    RenderSnoc(done, [Conj(member)]);
  }

  lemma AndStep(done: seq<Clause>, member: seq<Clause>, text: seq<Token>)
    requires text == Join(RenderAll(member), AND)
    ensures RenderAll(NonEmpty(done + [Conj(member)]))
         == RenderAll(NonEmpty(done)) + (if text == [] then [] else [[LParen] + text + [RParen]])
  {
    JoinedEmpty(member);
    NonEmptyAppend(done, [Conj(member)]);
    assert [Conj(member)][1..] == [];
    var kept := NonEmpty([Conj(member)]);
    assert kept == if member == [] then [] else [Conj(member)];
    RenderAllAppend(NonEmpty(done), kept);
    RenderOne(Conj(member));
  }

  lemma {:induction false} NonEmptyAppend(a: seq<Clause>, b: seq<Clause>)
    ensures NonEmpty(a + b) == NonEmpty(a) + NonEmpty(b)
  {
    if a == [] {
      assert a + b == b;
    } else {
      assert (a + b)[1..] == a[1..] + b;
      NonEmptyAppend(a[1..], b);
    }
  }
}
