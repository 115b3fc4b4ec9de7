/** What a lowered query returns: one row for every match of the pattern on which the
    WHERE is true, its columns the values of the RETURN items. */
module QueryMeaning {
  import opened Options
  import opened CypherSyntax
  import opened Sparql
  import opened CypherMapping
  import opened MatchMeaning
  import opened ScopeSafety
  import opened ExprMeaning
  import opened WhereMeaning

  // ---- Computed columns ----

  /** A row with one more column, which stays unbound on an error. */
  function WithColumn(ev: Evaluator, sc: Scope, row: Binding, item: ReturnItem): Binding
    requires ItemAccepted(sc, item)
  {
    if !NeedsExtend(sc, item) then row
    else match ev(LoweredExpr(sc, item.expr), row)
         case Some(y) => row[Column(item).value := y]
         case None => row
  }

  function WithColumns(ev: Evaluator, sc: Scope, m: Binding, items: seq<ReturnItem>): Binding
    requires ItemsAccepted(sc, items)
  {
    if items == [] then m else WithColumn(ev, sc, WithColumns(ev, sc, m, items[..|items| - 1]), items[|items| - 1])
  }

  lemma OneMoreSolution(store: Store, ev: Evaluator, sc: Scope, rows: GraphPattern, item: ReturnItem, r: Binding)
    requires ItemAccepted(sc, item)
    ensures Solution(store, ev, OneMore(sc, rows, item), r) <==> exists q :: Solution(store, ev, rows, q) && r == WithColumn(ev, sc, q, item)
  {
    hide LoweredExpr, ExprAccepted, Column, IsVariableName;
    if NeedsExtend(sc, item) {
      var v, e := Column(item).value, LoweredExpr(sc, item.expr);
      ExtendSolution(store, ev, rows, v, e, r);
      assert forall q: Binding :: WithColumn(ev, sc, q, item) == if ev(e, q).Some? then q[v := ev(e, q).value] else q;
    } else {
      assert WithColumn(ev, sc, r, item) == r;
    }
  }

  lemma ExtendSolution(store: Store, ev: Evaluator, rows: GraphPattern, v: Var, e: SExpr, r: Binding)
    ensures Solution(store, ev, Extend(rows, v, e), r)
            <==> exists q :: Solution(store, ev, rows, q) && r == if ev(e, q).Some? then q[v := ev(e, q).value] else q
  {
  }

  /** The rows are the solutions of the base, extended one column after the other. */
  lemma {:induction false} RowsExtend(store: Store, ev: Evaluator, sc: Scope, gp: GraphPattern, items: seq<ReturnItem>, r: Binding)
    requires ItemsAccepted(sc, items)
    ensures Solution(store, ev, ExtendAll(gp, Extensions(sc, items)), r)
            <==> exists m :: Solution(store, ev, gp, m) && r == WithColumns(ev, sc, m, items)
    decreases |items|
  {
    hide LoweredExpr, ExprAccepted, Column, IsVariableName, ExtendAll, Extensions, Columns, Solution, OneMore, WithColumn;
    if items == [] {
      NoItems(sc, gp);
    } else {
      var n := |items| - 1;
      var rows := ExtendAll(gp, Extensions(sc, items[..n]));
      RowsGrow(sc, gp, items);
      OneMoreSolution(store, ev, sc, rows, items[n], r);
      if q :| Solution(store, ev, rows, q) && r == WithColumn(ev, sc, q, items[n]) { RowsExtend(store, ev, sc, gp, items[..n], q); }
      if m :| Solution(store, ev, gp, m) && r == WithColumns(ev, sc, m, items) {
        var q := WithColumns(ev, sc, m, items[..n]);
        RowsExtend(store, ev, sc, gp, items[..n], q);
        assert q == WithColumns(ev, sc, m, items[..n]) && Solution(store, ev, gp, m);
        assert Solution(store, ev, rows, q);
        assert r == WithColumn(ev, sc, q, items[n]);
      }
    }
  }

  // ---- The columns of a match ----

  /** Each item's value under its column; no entry for an error. */
  function RowOf(ops: Operators, p: Pattern, a: Assignment, vals: Values, items: seq<ReturnItem>): Binding
    requires Shaped(p, a) && forall i :: 0 <= i < |items| ==> Column(items[i]).Some?
  {
    if items == [] then map[]
    else
      var row, last := RowOf(ops, p, a, vals, items[..|items| - 1]), items[|items| - 1];
      match CypherValue(ops, p, a, vals, last.expr)
      case Some(y) => row[Column(last).value := y]
      case None => row
  }

  /** The items' reads are among the values. */
  ghost predicate ReadsKnownBy(items: seq<ReturnItem>, vals: Values) {
    forall i, k :: 0 <= i < |items| && k in Reads(items[i].expr) ==> k in vals
  }

  ghost predicate Keeps(m: Binding, r: Binding) { forall v :: v in m ==> v in r && r[v] == m[v] }

  lemma {:induction false} ColumnsKeep(ev: Evaluator, sc: Scope, m: Binding, items: seq<ReturnItem>)
    requires ItemsAccepted(sc, items) && ColumnsAreNew(sc, m.Keys, items)
    ensures Keeps(m, WithColumns(ev, sc, m, items)) && WithColumns(ev, sc, m, items).Keys <= m.Keys + ComputedColumns(sc, items)
    decreases |items|
  {
    hide LoweredExpr, ExprAccepted, IsVariableName, Column;
    if items != [] { ColumnsKeep(ev, sc, m, items[..|items| - 1]); }
  }

  lemma MoreReadsAs(p: Pattern, m: Binding, r: Binding, a: Assignment, vals: Values)
    requires ReadsAs(p, m, a, vals) && Keeps(m, r)
    ensures ReadsAs(p, r, a, vals)
  {
    hide NodeVarOf, RelVarOf, PropVar, RelIri;
    forall i: nat | i < |p.hops| ensures TypeReadsAs(p, r, a, i) { assert TypeReadsAs(p, m, a, i); }
  }

  /** With new columns only, the row of a solution that reads as a match is the match's. */
  lemma {:induction false} RowIsRowOf(ev: Evaluator, ops: Operators, p: Pattern, m: Binding, a: Assignment, vals: Values, items: seq<ReturnItem>)
    requires Accepted(p) && ItemsAccepted(ScopeOf(p, 0), items) && Evaluates(ev, ops) && Shaped(p, a) && ReadsAs(p, m, a, vals)
    requires ReadsKnownBy(items, vals) && ColumnsAreNew(ScopeOf(p, 0), m.Keys, items)
    ensures Restrict(WithColumns(ev, ScopeOf(p, 0), m, items), Vars(Columns(items))) == RowOf(ops, p, a, vals, items)
    decreases |items|
  {
    hide LoweredExpr, ExprAccepted, IsVariableName, Accepted, Evaluates, ReadsAs, CypherValue, Column, Reads;
    var sc := ScopeOf(p, 0);
    if items != [] {
      var n := |items| - 1;
      var front, last := items[..n], items[n];
      assert ItemAccepted(sc, last) && ReadsKnownBy(front, vals);
      RowIsRowOf(ev, ops, p, m, a, vals, front);
      ColumnsKeep(ev, sc, m, front);
      var row := WithColumns(ev, sc, m, front);
      MoreReadsAs(p, m, row, a, vals);
      ItemValue(ev, ops, p, row, a, vals, last);
      ColumnsGrow(items);
      ColumnAdded(ev, ops, sc, row, Vars(Columns(front)), last);
    }
  }

  lemma ColumnsGrow(items: seq<ReturnItem>)
    requires items != [] && forall i :: 0 <= i < |items| ==> Column(items[i]).Some?
    ensures Vars(Columns(items)) == Vars(Columns(items[..|items| - 1])) + {Column(items[|items| - 1]).value}
  {
    hide Column;
  }

  lemma ItemValue(ev: Evaluator, ops: Operators, p: Pattern, row: Binding, a: Assignment, vals: Values, item: ReturnItem)
    requires Accepted(p) && ItemAccepted(ScopeOf(p, 0), item) && Evaluates(ev, ops) && Shaped(p, a) && ReadsAs(p, row, a, vals)
    requires forall k :: k in Reads(item.expr) ==> k in vals
    ensures ev(LoweredExpr(ScopeOf(p, 0), item.expr), row) == CypherValue(ops, p, a, vals, item.expr)
  {
    hide LoweredExpr, ExprAccepted, IsVariableName, Accepted, ReadsAs, CypherValue, SparqlValue, Column, NeNegatesEq;
    ExprKeepsMeaning(ops, p, row, a, vals, item.expr);
  }

  lemma ColumnAdded(ev: Evaluator, ops: Operators, sc: Scope, row: Binding, names: set<Var>, item: ReturnItem)
    requires Evaluates(ev, ops) && ItemAccepted(sc, item) && (NeedsExtend(sc, item) ==> Column(item).value !in row)
    ensures Restrict(WithColumn(ev, sc, row, item), names + {Column(item).value})
            == match ev(LoweredExpr(sc, item.expr), row)
               case Some(y) => Restrict(row, names)[Column(item).value := y]
               case None => Restrict(row, names)
  {
    hide LoweredExpr, ExprAccepted, IsVariableName, Column, NeNegatesEq;
    var col := Column(item).value;
    assert SparqlValue(ops, EVar(col), row) == if col in row then Some(row[col]) else None;
  }

  // ---- Whole queries ----

  lemma {:induction false} ItemReadsHave(items: seq<ReturnItem>, i: nat, k: Key)
    requires i < |items| && k in Reads(items[i].expr)
    ensures k in ItemReads(items)
    decreases |items|
  {
    hide Reads;
    if i < |items| - 1 { ItemReadsHave(items[..|items| - 1], i, k); }
  }

  lemma QueryReadsOf(q: Query)
    requires QueryAccepted(q)
    ensures ReadsOf(q.pattern, q.where_, QueryReads(q))
    ensures forall i, k :: 0 <= i < |q.items| && k in Reads(q.items[i].expr) ==> k in QueryReads(q)
  {
    hide Reads, NodeNames, ItemReads, KeyReads, Accepted, ItemsAccepted, KeysAccepted, WhereAccepted;
    forall k | k in QueryReads(q) ensures k.node in NodeNames(q.pattern, |q.pattern.hops|) { QueryReadNodes(q, k); }
    forall i, k | 0 <= i < |q.items| && k in Reads(q.items[i].expr) ensures k in QueryReads(q) { ItemReadsHave(q.items, i, k); }
  }

  /** What every column of the query is computed from. */
  function QueryRows(q: Query): GraphPattern
    requires QueryAccepted(q)
  {
    ExtendAll(Selection(q.pattern, 0, q.where_, QueryReads(q)), Extensions(ScopeOf(q.pattern, 0), q.items))
  }

  lemma RowOfSolution(store: Store, ev: Evaluator, ops: Operators, q: Query, m: Binding, a: Assignment, vals: Values)
    requires QueryAccepted(q) && Evaluates(ev, ops) && Solution(store, ev, Selection(q.pattern, 0, q.where_, QueryReads(q)), m)
    requires ColumnsAreNew(ScopeOf(q.pattern, 0), PatternScope(q.pattern) + ReadVars(QueryReads(q)), q.items)
    requires Shaped(q.pattern, a) && ReadsAs(q.pattern, m, a, vals) && vals.Keys == ToSet(QueryReads(q))
    ensures Restrict(WithColumns(ev, ScopeOf(q.pattern, 0), m, q.items), Vars(Columns(q.items))) == RowOf(ops, q.pattern, a, vals, q.items)
  {
    hide Accepted, Selection, LoweredExpr, ExprAccepted, QueryReads, Column, IsVariableName, Columns, Solution, Evaluates, ColumnsAreNew, WithColumns, RowOf,
         ReadsAs, Reads, PatternScope, ReadVars, BaseHolds, FilterHolds, PatternTriples, PatternPaths, ReadsOf;
    QueryReadsOf(q);
    SelectionHolds(store, ev, q.pattern, q.where_, QueryReads(q), m);
    RowIsRowOf(ev, ops, q.pattern, m, a, vals, q.items);
  }
}
