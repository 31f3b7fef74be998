/**
 The part of SQL that a compiled filter uses: three-valued logic, comparison
 atoms with numbered placeholders, and the text of a WHERE clause as a token
 list. `Meaning` reads that text with SQL's precedence (NOT before AND before
 OR), so a clause list pasted together with the wrong parentheses has the wrong
 meaning here too, and `()` is a syntax error.
 */
module Sql {
  import opened Prelude

  // ---- Three-valued logic ----

  datatype Tri = True | False | Unknown

  function Of(b: bool): Tri {
    if b then True else False
  }

  function Not3(a: Tri): Tri {
    match a
    case True => False
    case False => True
    case Unknown => Unknown
  }

  function And3(a: Tri, b: Tri): Tri {
    if a == False || b == False then False
    else if a == True && b == True then True
    else Unknown
  }

  function Or3(a: Tri, b: Tri): Tri {
    if a == True || b == True then True
    else if a == False && b == False then False
    else Unknown
  }

  // ---- Values, rows, and the database's own operators ----

  datatype Value =
    | Undefined
    | Null
    | Bool(b: bool)
    | Num(n: int)
    | Text(s: string)
    | Date(ms: int)
    | Pattern(source: string, insensitive: bool)
    | List(items: seq<Value>)

  /** What is pushed onto the parameter array: a value, or its JSON text. */
  datatype Param = Bind(v: Value) | Json(items: seq<Value>)

  type Row = map<string, Value>

  /** The driver binds `undefined` as NULL. */
  predicate IsNull(v: Value) {
    v.Null? || v.Undefined?
  }

  function Cell(row: Row, col: string): Value {
    if col in row then row[col] else Null
  }

  /** The operators of the database on non-null values; nothing is assumed of them. */
  datatype Engine = Engine(
    cmp: (Value, Value) -> int,
    regex: (Value, string, bool) -> bool,
    contains: (Value, Param) -> bool,
    length: Value -> int)

  datatype CmpOp = Eq | Gt | Gte | Lt | Lte

  function Compare(eng: Engine, op: CmpOp, a: Value, b: Value): Tri {
    if IsNull(a) || IsNull(b) then Unknown
    else
      var c := eng.cmp(a, b);
      match op
      case Eq => Of(c == 0)
      case Gt => Of(c > 0)
      case Gte => Of(c >= 0)
      case Lt => Of(c < 0)
      case Lte => Of(c <= 0)
  }

  /** NULL-safe equality, the negation of IS DISTINCT FROM. */
  predicate Same(eng: Engine, a: Value, b: Value) {
    if IsNull(a) || IsNull(b) then IsNull(a) && IsNull(b) else eng.cmp(a, b) == 0
  }

  /** `a = ANY(items)`: the three-valued disjunction of the equalities. */
  function EqualsAny(eng: Engine, a: Value, items: seq<Value>): Tri {
    if items == [] then False
    else Or3(Compare(eng, Eq, a, items[0]), EqualsAny(eng, a, items[1..]))
  }

  function LengthIs(eng: Engine, a: Value, n: int): Tri {
    if IsNull(a) then Unknown else Of(eng.length(a) == n)
  }

  function RegexMatch(eng: Engine, a: Value, pattern: string, insensitive: bool): Tri {
    if IsNull(a) then Unknown else Of(eng.regex(a, pattern, insensitive))
  }

  function Contains(eng: Engine, a: Value, p: Param): Tri {
    if IsNull(a) || (p.Bind? && IsNull(p.v)) then Unknown else Of(eng.contains(a, p))
  }

  // ---- Clauses and their text ----

  /** An atomic condition; `k` is the number in `$k`. */
  datatype Atom =
    | Cmp(col: string, op: CmpOp, k: nat)
    | Distinct(col: string, k: nat)
    | NullTest(col: string, isNull: bool)
    | AnyOf(col: string, k: nat)
    | Matches(col: string, k: nat, insensitive: bool)
    | Length(col: string, equal: bool, n: int)
    | HasJson(col: string, k: nat)
    | HasText(col: string, k: nat)
    | Literal(b: bool)

  datatype Token = LParen | RParen | AND | OR | NOT | Tok(a: Atom)

  datatype Clause =
    | Leaf(a: Atom)
    | Negate(e: Clause)
    | Conj(es: seq<Clause>)
    | Disj(es: seq<Clause>)

  /** `parts.join(sep)` */
  function Join(parts: seq<seq<Token>>, sep: Token): seq<Token> {
    if parts == [] then []
    else if |parts| == 1 then parts[0]
    else parts[0] + [sep] + Join(parts[1..], sep)
  }

  function Render(e: Clause): (ts: seq<Token>)
    ensures |ts| > 0 && ts[0] == LParen
    decreases e, 0
  {
    match e
    case Leaf(a) => [LParen, Tok(a), RParen]
    case Negate(x) => [LParen, NOT] + Render(x) + [RParen]
    case Conj(es) => [LParen] + Join(RenderAll(es), AND) + [RParen]
    case Disj(es) => [LParen] + Join(RenderAll(es), OR) + [RParen]
  }

  function RenderAll(es: seq<Clause>): (parts: seq<seq<Token>>)
    ensures |parts| == |es|
    decreases es, 1
  {
    if es == [] then [] else [Render(es[0])] + RenderAll(es[1..])
  }

  // ---- Evaluation ----

  datatype Env = Env(eng: Engine, row: Row, params: seq<Param>)

  predicate Bound(env: Env, k: nat) {
    1 <= k <= |env.params|
  }

  /** None when the placeholder is unbound or bound to a value of the wrong kind. */
  function EvalAtom(env: Env, a: Atom): Option<Tri> {
    match a
    case Cmp(col, op, k) =>
      if Bound(env, k) && env.params[k - 1].Bind?
      then Some(Compare(env.eng, op, Cell(env.row, col), env.params[k - 1].v)) else None
    case Distinct(col, k) =>
      if Bound(env, k) && env.params[k - 1].Bind?
      then Some(Of(!Same(env.eng, Cell(env.row, col), env.params[k - 1].v))) else None
    case NullTest(col, isNull) =>
      Some(Of(IsNull(Cell(env.row, col)) == isNull))
    case AnyOf(col, k) =>
      if Bound(env, k) && env.params[k - 1].Bind? && env.params[k - 1].v.List?
      then Some(EqualsAny(env.eng, Cell(env.row, col), env.params[k - 1].v.items)) else None
    case Matches(col, k, insensitive) =>
      if Bound(env, k) && env.params[k - 1].Bind? && env.params[k - 1].v.Text?
      then Some(RegexMatch(env.eng, Cell(env.row, col), env.params[k - 1].v.s, insensitive)) else None
    case Length(col, equal, n) =>
      var t := LengthIs(env.eng, Cell(env.row, col), n);
      Some(if equal then t else Not3(t))
    case HasJson(col, k) =>
      if Bound(env, k) && env.params[k - 1].Json?
      then Some(Contains(env.eng, Cell(env.row, col), env.params[k - 1])) else None
    case HasText(col, k) =>
      if Bound(env, k) && env.params[k - 1].Bind?
      then Some(Contains(env.eng, Cell(env.row, col), env.params[k - 1])) else None
    case Literal(b) => Some(Of(b))
  }

  /** Evaluation of a clause tree; an empty conjunction or disjunction is `()`, a syntax error. */
  function Eval(env: Env, e: Clause): Option<Tri>
    decreases e, 0
  {
    match e
    case Leaf(a) => EvalAtom(env, a)
    case Negate(x) => var r := Eval(env, x); if r.None? then None else Some(Not3(r.value))
    case Conj(es) => if es == [] then None else EvalConj(env, es)
    case Disj(es) => if es == [] then None else EvalDisj(env, es)
  }

  function EvalConj(env: Env, es: seq<Clause>): Option<Tri>
    decreases es, 1
  {
    if es == [] then Some(True)
    else
      var h, t := Eval(env, es[0]), EvalConj(env, es[1..]);
      if h.None? || t.None? then None else Some(And3(h.value, t.value))
  }

  function EvalDisj(env: Env, es: seq<Clause>): Option<Tri>
    decreases es, 1
  {
    if es == [] then Some(False)
    else
      var h, t := Eval(env, es[0]), EvalDisj(env, es[1..]);
      if h.None? || t.None? then None else Some(Or3(h.value, t.value))
  }

  // ---- Reading the text ----

  predicate StartsWith(ts: seq<Token>, t: Token) {
    ts != [] && ts[0] == t
  }

  function ReadOr(env: Env, ts: seq<Token>): (r: Option<(Tri, seq<Token>)>)
    ensures r.Some? ==> |r.value.1| < |ts|
    decreases |ts|, 3
  {
    var h := ReadAnd(env, ts);
    if h.None? || !StartsWith(h.value.1, OR) then h
    else
      var t := ReadOr(env, h.value.1[1..]);
      if t.None? then None else Some((Or3(h.value.0, t.value.0), t.value.1))
  }

  function ReadAnd(env: Env, ts: seq<Token>): (r: Option<(Tri, seq<Token>)>)
    ensures r.Some? ==> |r.value.1| < |ts|
    decreases |ts|, 2
  {
    var h := ReadNot(env, ts);
    if h.None? || !StartsWith(h.value.1, AND) then h
    else
      var t := ReadAnd(env, h.value.1[1..]);
      if t.None? then None else Some((And3(h.value.0, t.value.0), t.value.1))
  }

  function ReadNot(env: Env, ts: seq<Token>): (r: Option<(Tri, seq<Token>)>)
    ensures r.Some? ==> |r.value.1| < |ts|
    decreases |ts|, 1
  {
    if StartsWith(ts, NOT) then
      var h := ReadNot(env, ts[1..]);
      if h.None? then None else Some((Not3(h.value.0), h.value.1))
    else ReadPrimary(env, ts)
  }

  function ReadPrimary(env: Env, ts: seq<Token>): (r: Option<(Tri, seq<Token>)>)
    ensures r.Some? ==> |r.value.1| < |ts|
    decreases |ts|, 0
  {
    if ts == [] then None
    else match ts[0]
      case LParen =>
        var h := ReadOr(env, ts[1..]);
        if h.None? || !StartsWith(h.value.1, RParen) then None
        else Some((h.value.0, h.value.1[1..]))
      case Tok(a) =>
        var v := EvalAtom(env, a);
        if v.None? then None else Some((v.value, ts[1..]))
      case _ => None
  }

  /** The value of a WHERE text on a row; None is an error reported by the database. */
  function Meaning(env: Env, ts: seq<Token>): Option<Tri> {
    if ts == [] then Some(True)  // no WHERE at all
    else
      var r := ReadOr(env, ts);
      if r.None? || r.value.1 != [] then None else Some(r.value.0)
  }

  // ---- The text of a clause reads back as the clause ----

  function With(v: Option<Tri>, rest: seq<Token>): Option<(Tri, seq<Token>)> {
    if v.None? then None else Some((v.value, rest))
  }

  /** Parentheses around a readable text make it a primary with the same value. */
  lemma ReadsParens(env: Env, inner: seq<Token>, rest: seq<Token>, v: Option<Tri>)
    requires ReadOr(env, inner + ([RParen] + rest)) == With(v, [RParen] + rest)
    ensures ReadPrimary(env, [LParen] + inner + [RParen] + rest) == With(v, rest)
  {
    var ts := [LParen] + inner + [RParen] + rest;
    assert ts[1..] == inner + ([RParen] + rest);
    assert ([RParen] + rest)[1..] == rest;
  }

  /** `)` cannot start an operand, so `()` is not readable. */
  lemma NothingBeforeClose(env: Env, rest: seq<Token>)
    ensures ReadOr(env, [RParen] + rest).None?
  {
    var ts := [RParen] + rest;
    assert ReadPrimary(env, ts).None?;
    assert ReadNot(env, ts).None?;
    assert ReadAnd(env, ts).None?;
  }

  /** A primary followed by no operator is a whole expression. */
  lemma PrimaryAlone(env: Env, ts: seq<Token>)
    requires !StartsWith(ts, NOT)
    requires ReadPrimary(env, ts).Some? ==> StartsWith(ReadPrimary(env, ts).value.1, RParen)
    ensures ReadOr(env, ts) == ReadPrimary(env, ts)
  {
    assert ReadNot(env, ts) == ReadPrimary(env, ts);
    assert ReadAnd(env, ts) == ReadNot(env, ts);
  }

  lemma {:induction false} ReadsClause(env: Env, e: Clause, rest: seq<Token>)
    ensures ReadPrimary(env, Render(e) + rest) == With(Eval(env, e), rest)
    decreases e, 0
  {
    var close := [RParen] + rest;
    match e
    case Leaf(a) =>
      var ts := [Tok(a)] + close;
      assert ts[1..] == close;
      PrimaryAlone(env, ts);
      ReadsParens(env, [Tok(a)], rest, EvalAtom(env, a));
      assert Render(e) + rest == [LParen] + [Tok(a)] + [RParen] + rest;
    case Negate(x) =>
      ReadsNegation(env, x, close);
      ReadsParens(env, [NOT] + Render(x), rest, Eval(env, e));
      assert Render(e) + rest == [LParen] + ([NOT] + Render(x)) + [RParen] + rest;
    case Conj(es) =>
      if es == [] {
        NothingBeforeClose(env, rest);
        assert [] + close == close;
      } else {
        ReadsConj(env, es, close);
      }
      ReadsParens(env, Join(RenderAll(es), AND), rest, Eval(env, e));
    case Disj(es) =>
      if es == [] {
        NothingBeforeClose(env, rest);
        assert [] + close == close;
      } else {
        ReadsDisj(env, es, close);
      }
      ReadsParens(env, Join(RenderAll(es), OR), rest, Eval(env, e));
  }

  lemma {:induction false} ReadsNegation(env: Env, x: Clause, rest: seq<Token>)
    requires StartsWith(rest, RParen)
    ensures ReadOr(env, [NOT] + Render(x) + rest) == With(Eval(env, Negate(x)), rest)
    decreases x, 1
  {
    var inner := Render(x) + rest;
    var ts := [NOT] + Render(x) + rest;
    ReadsClause(env, x, rest);
    assert ts[1..] == inner;
    assert ReadNot(env, inner) == ReadPrimary(env, inner);
    assert ReadNot(env, ts) == With(Eval(env, Negate(x)), rest);
    assert ReadAnd(env, ts) == ReadNot(env, ts);
  }

  lemma {:induction false} ReadsConj(env: Env, es: seq<Clause>, rest: seq<Token>)
    requires es != [] && !StartsWith(rest, AND)
    ensures ReadAnd(env, Join(RenderAll(es), AND) + rest) == With(EvalConj(env, es), rest)
    decreases es, 1
  {
    var h := Render(es[0]);
    if |es| == 1 {
      assert RenderAll(es) == [h];
      ReadsClause(env, es[0], rest);
      assert es[1..] == [];
      assert Eval(env, es[0]).Some? ==> And3(Eval(env, es[0]).value, True) == Eval(env, es[0]).value;
    } else {
      var tail := Join(RenderAll(es[1..]), AND) + rest;
      assert RenderAll(es)[1..] == RenderAll(es[1..]);
      assert Join(RenderAll(es), AND) + rest == h + ([AND] + tail);
      ReadsClause(env, es[0], [AND] + tail);
      ReadsConj(env, es[1..], rest);
      assert ([AND] + tail)[1..] == tail;
    }
  }

  lemma {:induction false} ReadsDisj(env: Env, es: seq<Clause>, rest: seq<Token>)
    requires es != [] && !StartsWith(rest, AND) && !StartsWith(rest, OR)
    ensures ReadOr(env, Join(RenderAll(es), OR) + rest) == With(EvalDisj(env, es), rest)
    decreases es, 1
  {
    var h := Render(es[0]);
    if |es| == 1 {
      assert RenderAll(es) == [h];
      ReadsClause(env, es[0], rest);
      assert es[1..] == [];
      assert ReadAnd(env, h + rest) == With(Eval(env, es[0]), rest);
      assert EvalDisj(env, es) == Eval(env, es[0]) by {
        assert EvalDisj(env, es[1..]) == Some(False);
      }
    } else {
      var tail := Join(RenderAll(es[1..]), OR) + rest;
      assert RenderAll(es)[1..] == RenderAll(es[1..]);
      assert Join(RenderAll(es), OR) + rest == h + ([OR] + tail);
      ReadsClause(env, es[0], [OR] + tail);
      assert ReadAnd(env, h + ([OR] + tail)) == With(Eval(env, es[0]), [OR] + tail);
      ReadsDisj(env, es[1..], rest);
      assert ([OR] + tail)[1..] == tail;
    }
  }

  /** An unparenthesised AND-list, the form in which a whole WHERE text is emitted. */
  lemma MeaningOfClauses(env: Env, es: seq<Clause>)
    ensures Meaning(env, Join(RenderAll(es), AND)) == EvalConj(env, es)
  {
    if es != [] {
      var ts := Join(RenderAll(es), AND);
      assert ts + [] == ts;
      ReadsConj(env, es, []);
      assert ts != [] by { assert RenderAll(es)[0] == Render(es[0]); }
    }
  }
}
