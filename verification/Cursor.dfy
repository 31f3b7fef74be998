/**
 Keyset pagination over `id`: the cursor re-runs the compiled filter with one
 more condition, `id > $k`, bound to the last id it has yielded.
 */
module Cursor {
  import opened Prelude
  import opened Sql
  import opened Filter
  import opened FilterMeaning
  import opened FilterSelects
  import opened FilterBuilder

  const PAGE: nat := 500

  // ---- The database side ----

  function Id(row: Row): Value {
    Cell(row, "id")
  }

  /** Names a comparison of `a` with `c` through `b`; always true, it only steers instantiation. */
  predicate Via(a: Value, b: Value, c: Value) {
    true
  }

  /** Comparison is a total preorder, as a collation is. */
  ghost predicate TotalPreorder(eng: Engine) {
    && (forall a, b :: eng.cmp(a, b) > 0 <==> eng.cmp(b, a) < 0)
    && (forall a, b, c {:trigger Via(a, b, c)} :: eng.cmp(a, b) <= 0 && eng.cmp(b, c) <= 0 ==> eng.cmp(a, c) <= 0)
  }

  /** `id` is a primary key: never NULL, never twice. */
  ghost predicate UniqueIds(eng: Engine, rows: seq<Row>) {
    && (forall i | 0 <= i < |rows| :: !IsNull(Id(rows[i])))
    && (forall i, j | 0 <= i < j < |rows| :: eng.cmp(Id(rows[i]), Id(rows[j])) != 0)
  }

  function Keep(rows: seq<Row>, p: Row -> bool): seq<Row> {
    if rows == [] then []
    else (if p(rows[0]) then [rows[0]] else []) + Keep(rows[1..], p)
  }

  function Insert(eng: Engine, r: Row, rows: seq<Row>): seq<Row> {
    if rows == [] then [r]
    else if eng.cmp(Id(r), Id(rows[0])) < 0 then [r] + rows
    else [rows[0]] + Insert(eng, r, rows[1..])
  }

  /** ORDER BY id ASC */
  function SortById(eng: Engine, rows: seq<Row>): seq<Row> {
    if rows == [] then [] else Insert(eng, rows[0], SortById(eng, rows[1..]))
  }

  ghost predicate Increasing(eng: Engine, rows: seq<Row>) {
    forall i, j | 0 <= i < j < |rows| :: eng.cmp(Id(rows[i]), Id(rows[j])) < 0
  }

  /** The rows a WHERE text selects. */
  function Selected(eng: Engine, params: seq<Param>, where: seq<Token>): Row -> bool {
    (row: Row) => Meaning(Env(eng, row, params), where) == Some(True)
  }

  /** SELECT * FROM users WHERE ... ORDER BY id ASC LIMIT 500; an unreadable WHERE is an error. */
  function Query(eng: Engine, table: seq<Row>, where: seq<Token>, params: seq<Param>): Result<seq<Row>> {
    if Meaning(Env(eng, map[], params), where).None? then Err("syntax error")
    else
      var rows := SortById(eng, Keep(table, Selected(eng, params, where)));
      Ok(FirstPage(rows))
  }

  // ---- Sorting and filtering ----

  lemma Before(eng: Engine, a: Value, b: Value, c: Value)
    requires TotalPreorder(eng)
    ensures eng.cmp(a, b) < 0 && eng.cmp(b, c) <= 0 ==> eng.cmp(a, c) < 0
    ensures eng.cmp(a, b) <= 0 && eng.cmp(b, c) < 0 ==> eng.cmp(a, c) < 0
  {
    assert Via(b, c, a) && Via(c, a, b);
  }

  lemma {:induction false} KeepMembers(rows: seq<Row>, p: Row -> bool, r: Row)
    ensures r in Keep(rows, p) <==> r in rows && p(r)
  {
    if rows != [] {
      KeepMembers(rows[1..], p, r);
    }
  }

  lemma {:induction false} InsertPermutes(eng: Engine, r: Row, rows: seq<Row>)
    ensures multiset(Insert(eng, r, rows)) == multiset(rows) + multiset{r}
  {
    if rows != [] && !(eng.cmp(Id(r), Id(rows[0])) < 0) {
      InsertPermutes(eng, r, rows[1..]);
      assert rows == [rows[0]] + rows[1..];
    }
  }

  lemma {:induction false} SortPermutes(eng: Engine, rows: seq<Row>)
    ensures multiset(SortById(eng, rows)) == multiset(rows)
  {
    if rows != [] {
      SortPermutes(eng, rows[1..]);
      InsertPermutes(eng, rows[0], SortById(eng, rows[1..]));
      assert rows == [rows[0]] + rows[1..];
    }
  }

  lemma {:induction false} InsertMembers(eng: Engine, r: Row, rows: seq<Row>, x: Row)
    ensures x in Insert(eng, r, rows) <==> x == r || x in rows
  {
    if rows != [] && !(eng.cmp(Id(r), Id(rows[0])) < 0) {
      InsertMembers(eng, r, rows[1..], x);
    }
  }

  lemma {:induction false} SortMembers(eng: Engine, rows: seq<Row>, x: Row)
    ensures x in SortById(eng, rows) <==> x in rows
  {
    if rows != [] {
      SortMembers(eng, rows[1..], x);
      InsertMembers(eng, rows[0], SortById(eng, rows[1..]), x);
    }
  }

  /** `r` comes before every one of `rows`. */
  ghost predicate Below(eng: Engine, r: Row, rows: seq<Row>) {
    forall x | x in rows :: eng.cmp(Id(r), Id(x)) < 0
  }

  lemma IncreasingCons(eng: Engine, r: Row, rows: seq<Row>)
    requires Increasing(eng, rows) && Below(eng, r, rows)
    ensures Increasing(eng, [r] + rows)
  {
    var all := [r] + rows;
    forall i, j | 0 <= i < j < |all| ensures eng.cmp(Id(all[i]), Id(all[j])) < 0 {
      assert all[j] == rows[j - 1];
      if i > 0 {
        assert all[i] == rows[i - 1];
      }
    }
  }

  lemma IncreasingTail(eng: Engine, rows: seq<Row>)
    requires Increasing(eng, rows) && rows != []
    ensures Increasing(eng, rows[1..]) && Below(eng, rows[0], rows[1..])
  {
    forall x | x in rows[1..] ensures eng.cmp(Id(rows[0]), Id(x)) < 0 {
      var i :| 0 <= i < |rows[1..]| && rows[1..][i] == x;
      assert rows[i + 1] == x;
    }
  }

  lemma {:induction false} InsertIncreasing(eng: Engine, r: Row, rows: seq<Row>)
    requires TotalPreorder(eng) && Increasing(eng, rows)
    requires forall x | x in rows :: eng.cmp(Id(r), Id(x)) != 0
    ensures Increasing(eng, Insert(eng, r, rows))
  {
    if rows != [] {
      IncreasingTail(eng, rows);
      if eng.cmp(Id(r), Id(rows[0])) < 0 {
        forall x | x in rows ensures eng.cmp(Id(r), Id(x)) < 0 {
          Before(eng, Id(r), Id(rows[0]), Id(x));
        }
        IncreasingCons(eng, r, rows);
      } else {
        var s := Insert(eng, r, rows[1..]);
        InsertIncreasing(eng, r, rows[1..]);
        forall x | x in s ensures eng.cmp(Id(rows[0]), Id(x)) < 0 {
          InsertMembers(eng, r, rows[1..], x);
        }
        IncreasingCons(eng, rows[0], s);
      }
    }
  }

  lemma {:induction false} SortIncreasing(eng: Engine, rows: seq<Row>)
    requires TotalPreorder(eng) && UniqueIds(eng, rows)
    ensures Increasing(eng, SortById(eng, rows))
  {
    if rows != [] {
      SortIncreasing(eng, rows[1..]);
      var s := SortById(eng, rows[1..]);
      forall x | x in s ensures eng.cmp(Id(rows[0]), Id(x)) != 0 {
        SortMembers(eng, rows[1..], x);
        HeadUnique(eng, rows, x);
      }
      InsertIncreasing(eng, rows[0], s);
    }
  }

  lemma HeadUnique(eng: Engine, rows: seq<Row>, x: Row)
    requires UniqueIds(eng, rows) && rows != [] && x in rows[1..]
    ensures eng.cmp(Id(rows[0]), Id(x)) != 0 && !IsNull(Id(x))
  {
    var j :| 0 <= j < |rows[1..]| && rows[1..][j] == x;
    assert rows[j + 1] == x;
  }

  lemma UniqueCons(eng: Engine, r: Row, rows: seq<Row>)
    requires UniqueIds(eng, rows) && !IsNull(Id(r))
    requires forall x | x in rows :: eng.cmp(Id(r), Id(x)) != 0
    ensures UniqueIds(eng, [r] + rows)
  {
    var all := [r] + rows;
    forall i, j | 0 <= i < j < |all| ensures eng.cmp(Id(all[i]), Id(all[j])) != 0 {
      assert all[j] == rows[j - 1];
      if i > 0 {
        assert all[i] == rows[i - 1];
      }
    }
  }

  lemma {:induction false} KeepUnique(eng: Engine, rows: seq<Row>, p: Row -> bool)
    requires UniqueIds(eng, rows)
    ensures UniqueIds(eng, Keep(rows, p))
  {
    if rows != [] {
      KeepUnique(eng, rows[1..], p);
      var k := Keep(rows[1..], p);
      forall x | x in k ensures eng.cmp(Id(rows[0]), Id(x)) != 0 {
        KeepMembers(rows[1..], p, x);
        HeadUnique(eng, rows, x);
      }
      UniqueCons(eng, rows[0], k);
    }
  }

  lemma KeepCons(r: Row, rows: seq<Row>, p: Row -> bool)
    ensures Keep([r] + rows, p) == (if p(r) then [r] else []) + Keep(rows, p)
  {
    assert ([r] + rows)[1..] == rows;
  }

  lemma {:induction false} KeepAppend(a: seq<Row>, b: seq<Row>, p: Row -> bool)
    ensures Keep(a + b, p) == Keep(a, p) + Keep(b, p)
  {
    if a == [] {
      assert a + b == b;
    } else {
      KeepAppend(a[1..], b, p);
      assert a + b == [a[0]] + (a[1..] + b);
      KeepCons(a[0], a[1..] + b, p);
      var h := if p(a[0]) then [a[0]] else [];
      assert h + (Keep(a[1..], p) + Keep(b, p)) == h + Keep(a[1..], p) + Keep(b, p);
    }
  }

  lemma InsertFirst(eng: Engine, r: Row, rows: seq<Row>)
    requires Below(eng, r, rows)
    ensures Insert(eng, r, rows) == [r] + rows
  {
    if rows != [] {
      assert rows[0] in rows;
    }
  }

  lemma {:induction false} KeepInsert(eng: Engine, r: Row, rows: seq<Row>, p: Row -> bool)
    requires TotalPreorder(eng) && Increasing(eng, rows)
    ensures Keep(Insert(eng, r, rows), p)
         == if p(r) then Insert(eng, r, Keep(rows, p)) else Keep(rows, p)
  {
    if rows == [] {
      KeepCons(r, [], p);
      assert [r] + [] == [r];
    } else {
      IncreasingTail(eng, rows);
      if eng.cmp(Id(r), Id(rows[0])) < 0 {
        KeepCons(r, rows, p);
        forall x | x in Keep(rows, p) ensures eng.cmp(Id(r), Id(x)) < 0 {
          KeepMembers(rows, p, x);
          Before(eng, Id(r), Id(rows[0]), Id(x));
        }
        InsertFirst(eng, r, Keep(rows, p));
      } else {
        KeepInsert(eng, r, rows[1..], p);
        KeepCons(rows[0], Insert(eng, r, rows[1..]), p);
        if p(rows[0]) {
          var k := [rows[0]] + Keep(rows[1..], p);
          assert k[1..] == Keep(rows[1..], p);
        } else {
          assert Keep(rows, p) == Keep(rows[1..], p);
        }
      }
    }
  }

  /** Filtering and ordering commute. */
  lemma {:induction false} KeepSort(eng: Engine, rows: seq<Row>, p: Row -> bool)
    requires TotalPreorder(eng) && UniqueIds(eng, rows)
    ensures Keep(SortById(eng, rows), p) == SortById(eng, Keep(rows, p))
  {
    if rows != [] {
      var tail := rows[1..];
      KeepSort(eng, tail, p);
      SortIncreasing(eng, tail);
      KeepInsert(eng, rows[0], SortById(eng, tail), p);
      if p(rows[0]) {
        var k := [rows[0]] + Keep(tail, p);
        assert k[1..] == Keep(tail, p);
      } else {
        assert Keep(rows, p) == Keep(tail, p);
      }
    }
  }

  lemma {:induction false} KeepSame(rows: seq<Row>, p: Row -> bool, q: Row -> bool)
    requires forall r | r in rows :: p(r) == q(r)
    ensures Keep(rows, p) == Keep(rows, q)
  {
    if rows != [] {
      KeepSame(rows[1..], p, q);
    }
  }

  lemma {:induction false} KeepTwice(rows: seq<Row>, p: Row -> bool, q: Row -> bool, both: Row -> bool)
    requires forall r :: both(r) == (p(r) && q(r))
    ensures Keep(Keep(rows, p), q) == Keep(rows, both)
  {
    if rows != [] {
      KeepTwice(rows[1..], p, q, both);
      if p(rows[0]) {
        KeepCons(rows[0], Keep(rows[1..], p), q);
      } else {
        assert Keep(rows, p) == Keep(rows[1..], p);
      }
    }
  }

  lemma {:induction false} KeepAllOf(rows: seq<Row>, p: Row -> bool)
    requires forall r | r in rows :: p(r)
    ensures Keep(rows, p) == rows
  {
    if rows != [] {
      KeepAllOf(rows[1..], p);
    }
  }

  lemma {:induction false} KeepNoneOf(rows: seq<Row>, p: Row -> bool)
    requires forall r | r in rows :: !p(r)
    ensures Keep(rows, p) == []
  {
    if rows != [] {
      KeepNoneOf(rows[1..], p);
    }
  }

  predicate After(eng: Engine, row: Row, last: Value) {
    Compare(eng, Gt, Id(row), last) == True
  }

  lemma LaterIsAfter(eng: Engine, rows: seq<Row>, p: nat, r: Row)
    requires TotalPreorder(eng) && Increasing(eng, rows) && 0 < p <= |rows| && r in rows[p..]
    requires !IsNull(Id(r)) && !IsNull(Id(rows[p - 1]))
    ensures After(eng, r, Id(rows[p - 1]))
  {
    var i :| 0 <= i < |rows[p..]| && rows[p..][i] == r;
    assert rows[p + i] == r;
    assert eng.cmp(Id(rows[p - 1]), Id(rows[p + i])) < 0;
  }

  lemma EarlierIsNotAfter(eng: Engine, rows: seq<Row>, p: nat, r: Row)
    requires TotalPreorder(eng) && Increasing(eng, rows) && 0 < p <= |rows| && r in rows[..p]
    ensures !After(eng, r, Id(rows[p - 1]))
  {
    var i :| 0 <= i < |rows[..p]| && rows[..p][i] == r;
    assert rows[i] == r;
    if i < p - 1 {
      assert eng.cmp(Id(rows[i]), Id(rows[p - 1])) < 0;
    }
  }

  /** In id order, the rows after the p-th are exactly those with a larger id. */
  lemma KeepAfter(eng: Engine, rows: seq<Row>, p: nat, after: Row -> bool)
    requires TotalPreorder(eng) && Increasing(eng, rows) && 0 < p <= |rows|
    requires forall r | r in rows :: !IsNull(Id(r))
    requires forall r :: after(r) == After(eng, r, Id(rows[p - 1]))
    ensures Keep(rows, after) == rows[p..]
  {
    forall r | r in rows[p..] ensures after(r) {
      LaterIsAfter(eng, rows, p, r);
    }
    forall r | r in rows[..p] ensures !after(r) {
      EarlierIsNotAfter(eng, rows, p, r);
    }
    KeepSuffix(rows, p, after);
  }

  lemma KeepSuffix(rows: seq<Row>, p: nat, q: Row -> bool)
    requires p <= |rows| && (forall r | r in rows[..p] :: !q(r)) && (forall r | r in rows[p..] :: q(r))
    ensures Keep(rows, q) == rows[p..]
  {
    KeepAllOf(rows[p..], q);
    KeepNoneOf(rows[..p], q);
    KeepAppend(rows[..p], rows[p..], q);
    assert rows == rows[..p] + rows[p..];
  }

  // ---- The text of a later page ----

  predicate RefsWithin(refs: seq<nat>, n: nat) {
    forall k | k in refs :: 1 <= k <= n
  }

  /** Parameters pushed later do not change a clause that does not refer to them. */
  lemma {:induction false} EvalIgnoresLater(eng: Engine, row: Row, params: seq<Param>, after: seq<Param>, e: Clause)
    requires RefsWithin(Refs(e), |params|)
    ensures Eval(Env(eng, row, params + after), e) == Eval(Env(eng, row, params), e)
    decreases e, 0
  {
    match e
    case Leaf(a) =>
      if AtomRefs(a) != [] {
        var k := AtomRefs(a)[0];
        assert k in Refs(e);
        assert (params + after)[k - 1] == params[k - 1];
      }
    case Negate(x) => EvalIgnoresLater(eng, row, params, after, x);
    case Conj(es) => EvalAllIgnoreLater(eng, row, params, after, es);
    case Disj(es) => EvalAllIgnoreLater(eng, row, params, after, es);
  }

  lemma {:induction false} EvalAllIgnoreLater(
    eng: Engine, row: Row, params: seq<Param>, after: seq<Param>, es: seq<Clause>)
    requires RefsWithin(RefsAll(es), |params|)
    ensures EvalConj(Env(eng, row, params + after), es) == EvalConj(Env(eng, row, params), es)
    ensures EvalDisj(Env(eng, row, params + after), es) == EvalDisj(Env(eng, row, params), es)
    decreases es, 1
  {
    if es != [] {
      assert forall k | k in Refs(es[0]) :: k in RefsAll(es);
      assert forall k | k in RefsAll(es[1..]) :: k in RefsAll(es);
      EvalIgnoresLater(eng, row, params, after, es[0]);
      EvalAllIgnoreLater(eng, row, params, after, es[1..]);
    }
  }

  function IdAfter(k: nat): Atom {
    Cmp("id", Gt, k)
  }

  /** `(${where}) AND id > $k`, or `id > $k` alone. */
  function LaterWhere(where: seq<Token>, k: nat): seq<Token> {
    if where == [] then [Tok(IdAfter(k))] else [LParen] + where + [RParen, AND, Tok(IdAfter(k))]
  }

  lemma LaterMeaning(eng: Engine, row: Row, params: seq<Param>, cs: seq<Clause>, last: Value)
    requires RefsWithin(RefsAll(cs), |params|)
    ensures Meaning(Env(eng, row, params + [Bind(last)]), LaterWhere(Join(RenderAll(cs), AND), |params| + 1))
         == Both(Meaning(Env(eng, row, params), Join(RenderAll(cs), AND)), Some(Compare(eng, Gt, Id(row), last)))
  {
    var later := params + [Bind(last)];
    var env := Env(eng, row, later);
    var where := Join(RenderAll(cs), AND);
    var a := IdAfter(|params| + 1);
    assert later[|params|] == Bind(last);
    var v := EvalAtom(env, a);
    assert v == Some(Compare(eng, Gt, Id(row), last));
    EvalAllIgnoreLater(eng, row, params, [Bind(last)], cs);
    MeaningOfClauses(Env(eng, row, params), cs);
    JoinedEmpty(cs);
    AtomAlone(env, a);
    if cs != [] {
      var tail := [AND, Tok(a)];
      var ts := Render(Conj(cs)) + tail;
      assert LaterWhere(where, |params| + 1) == ts;
      ReadsClause(env, Conj(cs), tail);
      assert ReadNot(env, ts) == With(EvalConj(env, cs), tail);
      assert tail[1..] == [Tok(a)];
      assert ReadAnd(env, ts) == With(Both(EvalConj(env, cs), v), []);
    }
  }

  lemma AtomAlone(env: Env, a: Atom)
    ensures ReadAnd(env, [Tok(a)]) == With(EvalAtom(env, a), [])
    ensures ReadOr(env, [Tok(a)]) == With(EvalAtom(env, a), [])
  {
    assert [Tok(a)][1..] == [];
    assert ReadNot(env, [Tok(a)]) == ReadPrimary(env, [Tok(a)]);
    assert ReadAnd(env, [Tok(a)]) == ReadNot(env, [Tok(a)]);
  }

  /** A later page is the first 500 of the matching rows that follow the last one seen. */
  lemma LaterPage(eng: Engine, table: seq<Row>, params: seq<Param>, cs: seq<Clause>, p: nat)
    requires TotalPreorder(eng) && UniqueIds(eng, table) && RefsWithin(RefsAll(cs), |params|)
    requires Meaning(Env(eng, map[], params), Join(RenderAll(cs), AND)).Some?
    requires var all := SortById(eng, Keep(table, Selected(eng, params, Join(RenderAll(cs), AND)))); 0 < p <= |all|
    ensures var where := Join(RenderAll(cs), AND);
            var all := SortById(eng, Keep(table, Selected(eng, params, where)));
            var rest := all[p..];
            Query(eng, table, LaterWhere(where, |params| + 1), params + [Bind(Id(all[p - 1]))])
            == Ok(FirstPage(rest))
  {
    var where := Join(RenderAll(cs), AND);
    var sel := Selected(eng, params, where);
    var kept := Keep(table, sel);
    var all := SortById(eng, kept);
    var last := Id(all[p - 1]);
    var after := (row: Row) => After(eng, row, last);
    var later := Selected(eng, params + [Bind(last)], LaterWhere(where, |params| + 1));
    forall row: Row ensures later(row) == (sel(row) && after(row)) {
      LaterMeaning(eng, row, params, cs, last);
    }
    LaterMeaning(eng, map[], params, cs, last);
    KeepTwice(table, sel, after, later);
    KeepUnique(eng, table, sel);
    KeepSort(eng, kept, after);
    SortIncreasing(eng, kept);
    forall r | r in all ensures !IsNull(Id(r)) {
      SortMembers(eng, kept, r);
      KeepMembers(table, sel, r);
    }
    KeepAfter(eng, all, p, after);
  }

  function FirstPage(rows: seq<Row>): seq<Row> {
    if |rows| <= PAGE then rows else rows[..PAGE]
  }

  /** A page is the beginning of the rows: all of them, or as many as a page holds. */
  lemma PageFull(rows: seq<Row>)
    ensures FirstPage(rows) <= rows && |FirstPage(rows)| <= PAGE
    ensures FirstPage(rows) == rows || |FirstPage(rows)| == PAGE
  {
  }

  // ---- The cursor ----

  /**
   Fails exactly when the filter does not compile or its text is unreadable;
   otherwise yields every row the compiled filter selects, once, in id order.
   */
  method Run(eng: Engine, schema: Schema, table: seq<Row>, f: Filter) returns (r: Result<seq<Row>>)
    requires TotalPreorder(eng) && UniqueIds(eng, table)
    ensures r.Ok? <==> CompileFilter(schema, f, 0).Ok? && Readable(f)
    ensures Fault(schema, f).Some? ==> r == Err(Fault(schema, f).value)
    ensures r.Ok? ==> Increasing(eng, r.value)
    ensures r.Ok? ==>
      var c := CompileFilter(schema, f, 0).value;
      multiset(r.value) == multiset(Keep(table, Selected(eng, c.pushed, Join(RenderAll(c.clauses), AND))))
    ensures r.Ok? && Plain(f) ==>
      multiset(r.value) == multiset(Keep(table, (row: Row) => Denote(eng, row, schema, f) == True))
    ensures r.Ok? && Plain(f) ==>
      forall row :: row in r.value <==> row in table && Decides(eng, row, schema, f, true)
  {
    CompileFails(schema, f, 0);
    var params := new ParamList([]);
    var built := BuildWhere(schema, f, params);
    if built.Err? {
      return Err(built.error);
    }
    ghost var c := CompileFilter(schema, f, 0).value;
    assert params.values == c.pushed;
    CompiledText(eng, schema, f);
    ghost var kept := Keep(table, Selected(eng, c.pushed, Join(RenderAll(c.clauses), AND)));
    KeepUnique(eng, table, Selected(eng, c.pushed, Join(RenderAll(c.clauses), AND)));
    SortIncreasing(eng, kept);
    SortPermutes(eng, kept);
    r := Pages(eng, table, built.value, params.values, c.clauses);
    if r.Ok? && Plain(f) {
      SelectedIsDenoted(eng, schema, table, f);
      SelectedMeets(eng, schema, table, f, r.value);
    }
  }

  /** The rows that are kept are those of the table that certainly meet the filter. */
  lemma SelectedMeets(eng: Engine, schema: Schema, table: seq<Row>, f: Filter, rows: seq<Row>)
    requires Fault(schema, f).None?
    requires multiset(rows) == multiset(Keep(table, (row: Row) => Denote(eng, row, schema, f) == True))
    ensures forall row :: row in rows <==> row in table && Decides(eng, row, schema, f, true)
  {
    var p := (row: Row) => Denote(eng, row, schema, f) == True;
    forall row ensures row in rows <==> row in table && Decides(eng, row, schema, f, true) {
      KeepMembers(table, p, row);
      FilterDecided(eng, row, schema, f);
      assert row in rows <==> row in multiset(rows);
      assert row in Keep(table, p) <==> row in multiset(Keep(table, p));
    }
  }

  lemma CompiledText(eng: Engine, schema: Schema, f: Filter)
    requires CompileFilter(schema, f, 0).Ok?
    ensures var c := CompileFilter(schema, f, 0).value;
            && RefsWithin(RefsAll(c.clauses), |c.pushed|)
            && (Meaning(Env(eng, map[], c.pushed), Join(RenderAll(c.clauses), AND)).Some? <==> Readable(f))
  {
    var c := CompileFilter(schema, f, 0).value;
    EachParameterOnce(schema, f, 0);
    WherePreservesMeaning(eng, map[], schema, f, [], []);
    assert [] + c.pushed + [] == c.pushed;
  }

  lemma PageStep(all: seq<Row>, k: nat)
    requires k <= |all|
    ensures all[0..] == all
    ensures var page := FirstPage(all[k..]);
            && (page == [] <==> k == |all|)
            && k + |page| <= |all|
            && all[..k] + page == all[..k + |page|]
            && (page != [] ==> page[|page| - 1] == all[k + |page| - 1])
  {
  }

  /** One turn of the cursor's loop: the statement it runs, given the last id seen. */
  function PageQuery(eng: Engine, table: seq<Row>, where: seq<Token>, params: seq<Param>, last: Option<Value>)
    : Result<seq<Row>>
  {
    if last.None? then Query(eng, table, where, params)
    else Query(eng, table, LaterWhere(where, |params| + 1), params + [Bind(last.value)])
  }

  lemma NthPage(eng: Engine, table: seq<Row>, params: seq<Param>, cs: seq<Clause>, all: seq<Row>, k: nat)
    requires TotalPreorder(eng) && UniqueIds(eng, table) && RefsWithin(RefsAll(cs), |params|)
    requires Meaning(Env(eng, map[], params), Join(RenderAll(cs), AND)).Some?
    requires all == SortById(eng, Keep(table, Selected(eng, params, Join(RenderAll(cs), AND)))) && k <= |all|
    ensures PageQuery(eng, table, Join(RenderAll(cs), AND), params, if k == 0 then None else Some(Id(all[k - 1])))
         == Ok(FirstPage(all[k..]))
  {
    if k > 0 {
      LaterPage(eng, table, params, cs, k);
    } else {
      assert all[k..] == all;
    }
  }

  /** The paging loop over one compiled WHERE text. */
  method Pages(eng: Engine, table: seq<Row>, where: seq<Token>, params: seq<Param>, ghost cs: seq<Clause>)
    returns (r: Result<seq<Row>>)
    requires TotalPreorder(eng) && UniqueIds(eng, table)
    requires where == Join(RenderAll(cs), AND) && RefsWithin(RefsAll(cs), |params|)
    ensures r.Ok? <==> Meaning(Env(eng, map[], params), where).Some?
    ensures r.Ok? ==> r.value == SortById(eng, Keep(table, Selected(eng, params, where)))
  {
    ghost var all := SortById(eng, Keep(table, Selected(eng, params, where)));
    var rows := PageQuery(eng, table, where, params, None);
    if rows.Err? {
      return Err(rows.error);
    }
    NthPage(eng, table, params, cs, all, 0);
    var yielded: seq<Row> := [];
    while rows.value != []
      invariant |yielded| <= |all| && yielded == all[..|yielded|]
      invariant rows == Ok(FirstPage(all[|yielded|..]))
      decreases |all| - |yielded|
    {
      PageStep(all, |yielded|);
      yielded := yielded + rows.value;
      var lastId := Id(rows.value[|rows.value| - 1]);
      NthPage(eng, table, params, cs, all, |yielded|);
      rows := PageQuery(eng, table, where, params, Some(lastId));
    }
    PageStep(all, |yielded|);
    return Ok(yielded);
  }

  /** With the filter compiler's guarantee: the rows are those the filter itself accepts. */
  lemma SelectedIsDenoted(eng: Engine, schema: Schema, table: seq<Row>, f: Filter)
    requires CompileFilter(schema, f, 0).Ok? && Readable(f) && Plain(f)
    ensures var c := CompileFilter(schema, f, 0).value;
            Keep(table, Selected(eng, c.pushed, Join(RenderAll(c.clauses), AND)))
            == Keep(table, (row: Row) => Denote(eng, row, schema, f) == True)
  {
    var c := CompileFilter(schema, f, 0).value;
    forall row: Row
      ensures Meaning(Env(eng, row, c.pushed), Join(RenderAll(c.clauses), AND)) == Some(Denote(eng, row, schema, f))
    {
      WherePreservesMeaning(eng, row, schema, f, [], []);
      assert [] + c.pushed + [] == c.pushed;
    }
    KeepSame(table, Selected(eng, c.pushed, Join(RenderAll(c.clauses), AND)),
             (row: Row) => Denote(eng, row, schema, f) == True);
  }
}
