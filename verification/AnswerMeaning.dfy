/** The rows a query returns, in their order and with their repetitions. */
module AnswerMeaning {
  import opened Options
  import opened CypherSyntax
  import opened Sparql
  import opened CypherMapping
  import opened MatchMeaning
  import opened ScopeSafety
  import opened ExprMeaning
  import opened WhereMeaning
  import opened QueryMeaning

  // ---- What a query asks for ----

  /** A way to match the pattern, with a value for every property the query reads. */
  datatype Match = Match(a: Assignment, env: Binding, vals: Values)

  /** A relationship with a type stands for it, whatever its length. */
  ghost predicate Typed(p: Pattern, a: Assignment)
    requires Shaped(p, a)
  {
    forall i: nat :: i < |p.hops| && p.hops[i].rel.relType.Some? ==> a.preds[i] == RelIri(p.hops[i].rel.relType.value)
  }

  /** The WHERE is true on it, and parts that share a variable share a value. */
  ghost predicate IsMatchOf(store: Store, ops: Operators, q: Query, x: Match) {
    && Selected(store, ops, q.pattern, q.where_, QueryReads(q), x.a, x.env, x.vals)
    && AllAgree(q.pattern, x.a, x.vals) && Typed(q.pattern, x.a)
  }

  /** Does `x` come before `y` by ORDER BY, from the `i`th item on? */
  predicate ComesBefore(ops: Operators, less: Less, q: Query, i: nat, x: Match, y: Match)
    requires Shaped(q.pattern, x.a) && Shaped(q.pattern, y.a)
    decreases |q.orderBy| - i
  {
    i < |q.orderBy| &&
    var e := q.orderBy[i].expr;
    var a, b := CypherValue(ops, q.pattern, x.a, x.vals, e), CypherValue(ops, q.pattern, y.a, y.vals, e);
    if !less(a, b) && !less(b, a) then ComesBefore(ops, less, q, i + 1, x, y)
    else if q.orderBy[i].descending then less(b, a)
    else less(a, b)
  }

  /** Every match once, none before one that comes before it. */
  ghost predicate Arranged(store: Store, ops: Operators, less: Less, q: Query, ms: seq<Match>) {
    && NoRepeats(ms) && (forall x :: x in ms <==> IsMatchOf(store, ops, q, x))
    && (forall i :: 0 <= i < |ms| ==> Shaped(q.pattern, ms[i].a))
    && forall i, j :: 0 <= i < j < |ms| ==> !ComesBefore(ops, less, q, 0, ms[j], ms[i])
  }

  /** The row of each. */
  ghost predicate RowsOf(ops: Operators, q: Query, ms: seq<Match>, cells: seq<Binding>)
    requires QueryAccepted(q)
  {
    |cells| == |ms| && forall i :: 0 <= i < |ms| ==> Shaped(q.pattern, ms[i].a) && cells[i] == RowOf(ops, q.pattern, ms[i].a, ms[i].vals, q.items)
  }

  /** `a` occurs before `b` does. */
  ghost predicate OccursBefore(cells: seq<Binding>, a: Binding, b: Binding) {
    exists k :: 0 <= k < |cells| && cells[k] == a && b !in cells[..k + 1]
  }

  /** Each row where it occurs first, and only there. */
  ghost predicate Once(cells: seq<Binding>, d: seq<Binding>) {
    && NoRepeats(d) && (forall r :: r in d <==> r in cells)
    && forall i, j :: 0 <= i < j < |d| ==> OccursBefore(cells, d[i], d[j])
  }

  function Start(q: Query): nat { match q.skip case Some(n) => n case None => 0 }

  /** The rows a query asks for: those of the matches in order, without repetitions if
      DISTINCT, from SKIP on, as many as LIMIT. */
  ghost predicate Answers(store: Store, ops: Operators, less: Less, q: Query, rows: seq<Binding>)
    requires QueryAccepted(q)
  {
    exists ms, cells, d ::
      && Arranged(store, ops, less, q, ms) && RowsOf(ops, q, ms, cells) && (if q.distinct then Once(cells, d) else d == cells)
      && Section(q, d, rows)
  }

  /** From SKIP on, as many as LIMIT or as there are. */
  predicate Section(q: Query, d: seq<Binding>, rows: seq<Binding>) {
    |rows| == Count(q, |d|) && forall i :: 0 <= i < |rows| ==> rows[i] == d[Start(q) + i]
  }

  /** How many of `n` rows are left. */
  function Count(q: Query, n: nat): nat {
    var rest: nat := if Start(q) <= n then n - Start(q) else 0;
    if q.limit.Some? && q.limit.value < rest then q.limit.value else rest
  }

  // ---- Sequences ----

  lemma {:induction false} FirstOnesOnce(cells: seq<Binding>)
    ensures Once(cells, FirstOnes(cells))
    decreases |cells|
  {
    if cells != [] {
      var front, last := cells[..|cells| - 1], cells[|cells| - 1];
      FirstOnesOnce(front);
      var d := FirstOnes(front);
      assert forall r :: r in cells <==> r in front || r == last by { assert cells == front + [last]; }
      forall i, j | 0 <= i < j < |FirstOnes(cells)|
        ensures OccursBefore(cells, FirstOnes(cells)[i], FirstOnes(cells)[j])
      {
        if j < |d| {
          assert OccursBefore(front, d[i], d[j]);
          var k :| 0 <= k < |front| && front[k] == d[i] && d[j] !in front[..k + 1];
          assert cells[..k + 1] == front[..k + 1];
        } else {
          assert d[i] in front;
          var k :| 0 <= k < |front| && front[k] == d[i];
          assert last !in front[..k + 1];
          assert cells[..k + 1] == front[..k + 1];
        }
      }
    }
  }

  /** There is only one way to do so. */
  lemma {:induction false} OnceIsUnique(cells: seq<Binding>, d: seq<Binding>, e: seq<Binding>, n: nat)
    requires Once(cells, d) && Once(cells, e) && n <= |d| && n <= |e|
    ensures d[..n] == e[..n]
    decreases n
  {
    if n > 0 {
      var m: nat := n - 1;
      OnceIsUnique(cells, d, e, m);
      if d[m] != e[m] {
        ComesLater(cells, d, e, m);
        ComesLater(cells, e, d, m);
        NotBothFirst(cells, d[m], e[m]);
        assert false;
      }
    }
  }

  lemma NotBothFirst(cells: seq<Binding>, a: Binding, b: Binding)
    ensures OccursBefore(cells, a, b) ==> !OccursBefore(cells, b, a)
  {
    if OccursBefore(cells, a, b) {
      var k :| 0 <= k < |cells| && cells[k] == a && b !in cells[..k + 1];
      assert forall i :: 0 <= i <= k ==> cells[..k + 1][i] == cells[i];
      forall j | 0 <= j < |cells| && cells[j] == b ensures a in cells[..j + 1] {
        assert cells[..j + 1][k] == a;
      }
    }
  }

  lemma ComesLater(cells: seq<Binding>, d: seq<Binding>, e: seq<Binding>, m: nat)
    requires Once(cells, d) && Once(cells, e) && m < |d| && m < |e| && d[..m] == e[..m] && d[m] != e[m]
    ensures OccursBefore(cells, d[m], e[m])
  {
    hide OccursBefore;
    var k := PlaceOf(cells, e, d, m);
  }

  /** Where the other list has this element: not before. */
  lemma PlaceOf(cells: seq<Binding>, d: seq<Binding>, e: seq<Binding>, m: nat) returns (j: nat)
    requires Once(cells, d) && Once(cells, e) && m < |d| && m < |e| && d[..m] == e[..m]
    ensures m <= j < |e| && e[j] == d[m]
  {
    assert d[m] in d;
    assert d[m] in e;
    j :| 0 <= j < |e| && e[j] == d[m];
    assert forall i :: 0 <= i < m ==> d[i] == d[..m][i] == e[..m][i] == e[i];
  }

  lemma OnceIsFirstOnes(cells: seq<Binding>, d: seq<Binding>)
    requires Once(cells, d)
    ensures d == FirstOnes(cells)
  {
    var e := FirstOnes(cells);
    FirstOnesOnce(cells);
    SameElementsSameLength(d, e);
    OnceIsUnique(cells, d, e, |d|);
    assert d[..|d|] == d && e[..|e|] == e;
  }

  lemma {:induction false} ElementsCount(xs: seq<Binding>)
    requires NoRepeats(xs)
    ensures |set x | x in xs| == |xs|
    decreases |xs|
  {
    if xs != [] {
      var front, last := xs[..|xs| - 1], xs[|xs| - 1];
      ElementsCount(front);
      assert (set x | x in xs) == (set x | x in front) + {last} by { assert xs == front + [last]; }
    }
  }

  lemma SameElementsSameLength(d: seq<Binding>, e: seq<Binding>)
    requires NoRepeats(d) && NoRepeats(e) && forall r :: r in d <==> r in e
    ensures |d| == |e|
  {
    ElementsCount(d);
    ElementsCount(e);
    assert (set x | x in d) == (set x | x in e);
  }

  lemma ClipIs(d: seq<Binding>, q: Query, rows: seq<Binding>)
    ensures rows == Clip(d, Start(q), q.limit) <==> Section(q, d, rows)
  {
  }

  lemma {:induction false} RepeatsCount(xs: seq<Binding>)
    ensures NoRepeats(xs) <==> forall x :: multiset(xs)[x] <= 1
    decreases |xs|
  {
    if xs != [] {
      var front, last := xs[..|xs| - 1], xs[|xs| - 1];
      RepeatsCount(front);
      assert xs == front + [last];
      assert multiset(xs) == multiset(front) + multiset{last};
      if NoRepeats(xs) {
        assert last !in front;
        forall x ensures multiset(xs)[x] <= 1 {}
      } else if NoRepeats(front) {
        assert last in front;
        assert multiset(front)[last] >= 1 && multiset(xs)[last] > 1;
      } else {
        var x :| multiset(front)[x] > 1;
        assert multiset(xs)[x] > 1;
      }
    }
  }

  lemma RearrangedLists(xs: seq<Binding>, ys: seq<Binding>)
    requires multiset(xs) == multiset(ys) && NoRepeats(xs)
    ensures NoRepeats(ys) && forall r :: r in ys <==> r in xs
  {
    RepeatsCount(xs);
    RepeatsCount(ys);
    assert forall r :: r in ys <==> r in multiset(ys);
    assert forall r :: r in xs <==> r in multiset(xs);
  }

  // ---- Matches and rows before ordering ----

  /** What the theorems ask of a query. */
  ghost predicate Proper(ev: Evaluator, ops: Operators, q: Query) {
    && QueryAccepted(q) && Evaluates(ev, ops)
    && (Anchored(q.pattern) || QueryReads(q) != [])
    && ColumnsAreNew(ScopeOf(q.pattern, 0), PatternScope(q.pattern) + ReadVars(QueryReads(q)), q.items)
  }

  function Base(q: Query): GraphPattern
    requires QueryAccepted(q)
  {
    Selection(q.pattern, 0, q.where_, QueryReads(q))
  }

  /** The row with all its variables, computed columns included. */
  function FullRow(ev: Evaluator, q: Query, m: Binding): Binding
    requires QueryAccepted(q)
  {
    WithColumns(ev, ScopeOf(q.pattern, 0), m, q.items)
  }

  lemma SolutionVars(store: Store, ev: Evaluator, ops: Operators, q: Query, m: Binding)
    requires Proper(ev, ops, q) && Solution(store, ev, Base(q), m)
    ensures m.Keys == PatternScope(q.pattern) + ReadVars(QueryReads(q)) == Slots(q.pattern, 0, |q.pattern.hops|) + ReadNames(QueryReads(q))
    ensures Keeps(m, FullRow(ev, q, m))
  {
    hide Accepted, Selection, LoweredExpr, ExprAccepted, QueryReads, Column, IsVariableName, Columns, Solution, Evaluates, ColumnsAreNew, WithColumns,
         Reads, PatternScope, ReadVars, BaseHolds, FilterHolds, PatternTriples, PatternPaths, ReadsOf, Slots, ReadNames, Anchored, Keeps;
    QueryReadsOf(q);
    SelectionHolds(store, ev, q.pattern, q.where_, QueryReads(q), m);
    ColumnsKeep(ev, ScopeOf(q.pattern, 0), m, q.items);
    ReadsAreNamed(q);
    SlotsAreBound(q.pattern, QueryReads(q));
  }

  lemma ReadsAreNamed(q: Query)
    requires QueryAccepted(q)
    ensures forall k :: k in QueryReads(q) ==> k.node in NodeNames(q.pattern, |q.pattern.hops|)
  {
    hide QueryReads, NodeNames;
    forall k | k in QueryReads(q) ensures k.node in NodeNames(q.pattern, |q.pattern.hops|) { QueryReadNodes(q, k); }
  }

  /** The match a solution is read as. */
  function MatchFor(q: Query, m: Binding): Match
    requires Slots(q.pattern, 0, |q.pattern.hops|) <= m.Keys && ReadNames(QueryReads(q)) <= m.Keys
  {
    Match(Read(q.pattern, 0, m), Restrict(m, UserVars(q.pattern, |q.pattern.hops|)), ValuesIn(QueryReads(q), m))
  }

  lemma SolutionIsMatch(store: Store, ev: Evaluator, ops: Operators, q: Query, m: Binding)
    requires Proper(ev, ops, q) && Solution(store, ev, Base(q), m)
    ensures Slots(q.pattern, 0, |q.pattern.hops|) <= m.Keys && ReadNames(QueryReads(q)) <= m.Keys
    ensures var x := MatchFor(q, m); IsMatchOf(store, ops, q, x) && Shaped(q.pattern, x.a) && ReadsAs(q.pattern, m, x.a, x.vals)
  {
    hide Accepted, Selection, QueryReads, Solution, Evaluates, Selected, AllAgree, ReadsOf, ColumnsAreNew, ReadsAs, UserVars, Slots, Anchored, ItemsAccepted,
         KeysAccepted, PropVar, RelIri;
    QueryReadsOf(q);
    SolutionIsSelected(store, ev, ops, q.pattern, q.where_, QueryReads(q), m);
    ReadIsTyped(q.pattern, m);
  }

  lemma ReadIsTyped(p: Pattern, m: Binding)
    requires Slots(p, 0, |p.hops|) <= m.Keys
    ensures Shaped(p, Read(p, 0, m)) && Typed(p, Read(p, 0, m))
  {
    hide Slots, RelIri;
  }

  lemma MatchIsSolution(store: Store, ev: Evaluator, ops: Operators, q: Query, x: Match) returns (m: Binding)
    requires Proper(ev, ops, q) && IsMatchOf(store, ops, q, x)
    ensures Solution(store, ev, Base(q), m) && Slots(q.pattern, 0, |q.pattern.hops|) <= m.Keys && ReadNames(QueryReads(q)) <= m.Keys
    ensures MatchFor(q, m) == x
  {
    hide Accepted, Selection, QueryReads, Solution, Evaluates, AllAgree, ReadsOf, ColumnsAreNew, ReadsAs, UserVars, Slots, Anchored, ItemsAccepted,
         KeysAccepted, Chosen, Homomorphism, TrueOn, PropVar, Typed, Read;
    var p, keys := q.pattern, QueryReads(q);
    QueryReadsOf(q);
    SelectedIsSolution(store, ev, ops, p, q.where_, keys, x.a, x.env, x.vals);
    m := Chosen(p, keys, x.a, x.vals);
    SolutionVars(store, ev, ops, q, m);
    ReadsBack(q, m, x);
  }

  /** Reading such a binding gives the match back. */
  lemma ReadsBack(q: Query, m: Binding, x: Match)
    requires QueryAccepted(q) && Shaped(q.pattern, x.a) && ReadsAs(q.pattern, m, x.a, x.vals) && Typed(q.pattern, x.a)
    requires x.vals.Keys == ToSet(QueryReads(q)) && Restrict(m, UserVars(q.pattern, |q.pattern.hops|)) == x.env
    requires Slots(q.pattern, 0, |q.pattern.hops|) <= m.Keys && ReadNames(QueryReads(q)) <= m.Keys
    ensures MatchFor(q, m) == x
  {
    hide QueryReads, NodeVarOf, RelVarOf, Slots, UserVars, PropVar, RelIri, ItemsAccepted, KeysAccepted, WhereAccepted, NodeAccepted;
    var p, a := q.pattern, Read(q.pattern, 0, m);
    forall i: nat | i < |p.hops| ensures a.preds[i] == x.a.preds[i] {
      assert TypeReadsAs(p, m, x.a, i) && RelAccepted(p.hops[i].rel);
      SlotsHave(p, 0, |p.hops|, i);
    }
    assert a.nodes == x.a.nodes && a.preds == x.a.preds;
    assert ValuesIn(QueryReads(q), m) == x.vals;
  }

  /** A binding of just these variables is determined by what it reads as. */
  lemma SameMatchSameSolution(q: Query, m: Binding, n: Binding)
    requires m.Keys == n.Keys == Slots(q.pattern, 0, |q.pattern.hops|) + ReadNames(QueryReads(q)) && MatchFor(q, m) == MatchFor(q, n)
    requires QueryAccepted(q)
    ensures m == n
  {
    hide QueryReads, NodeVarOf, RelVarOf, Slots, UserVars, PropVar, RelIri, QueryAccepted;
    var p, k := q.pattern, |q.pattern.hops|;
    forall v | v in m ensures m[v] == n[v] {
      if v in ReadNames(QueryReads(q)) {
        var r :| r in QueryReads(q) && v == PropVar(r);
        assert ValuesIn(QueryReads(q), m)[r] == ValuesIn(QueryReads(q), n)[r];
      } else {
        SlotIsPart(p, k, v);
        if i: nat :| i <= k && NodeVarOf(p, 0, i) == v { assert Read(p, 0, m).nodes[i] == Read(p, 0, n).nodes[i]; }
        else {
          var i: nat :| i < k && BindsPredicate(p.hops[i].rel) && RelVarOf(p, 0, i) == v;
          assert Read(p, 0, m).preds[i] == Read(p, 0, n).preds[i];
        }
      }
    }
  }

  // ---- Sequences of full rows ----

  function MapColumns(ev: Evaluator, sc: Scope, rows: seq<Binding>, items: seq<ReturnItem>): seq<Binding>
    requires ItemsAccepted(sc, items)
  {
    seq(|rows|, i requires 0 <= i < |rows| => WithColumns(ev, sc, rows[i], items))
  }

  function MapColumn(ev: Evaluator, sc: Scope, rows: seq<Binding>, item: ReturnItem): seq<Binding>
    requires ItemAccepted(sc, item)
  {
    seq(|rows|, i requires 0 <= i < |rows| => WithColumn(ev, sc, rows[i], item))
  }

  lemma ExtendRowIs(ev: Evaluator, sc: Scope, row: Binding, item: ReturnItem)
    requires ItemAccepted(sc, item) && NeedsExtend(sc, item)
    ensures WithColumn(ev, sc, row, item) == ExtendRow(ev, row, Column(item).value, LoweredExpr(sc, item.expr))
  {
    hide LoweredExpr, ExprAccepted, Column, IsVariableName;
  }

  lemma MapColumnIs(ev: Evaluator, sc: Scope, rows: seq<Binding>, item: ReturnItem)
    requires ItemAccepted(sc, item)
    ensures MapColumn(ev, sc, rows, item)
            == if NeedsExtend(sc, item) then ExtendRows(ev, rows, Column(item).value, LoweredExpr(sc, item.expr)) else rows
  {
    hide LoweredExpr, ExprAccepted, Column, IsVariableName, WithColumn, ExtendRow;
    forall i | 0 <= i < |rows|
      ensures WithColumn(ev, sc, rows[i], item)
              == if NeedsExtend(sc, item) then ExtendRow(ev, rows[i], Column(item).value, LoweredExpr(sc, item.expr)) else rows[i]
    {
      if NeedsExtend(sc, item) { ExtendRowIs(ev, sc, rows[i], item); } else { NoColumnMore(ev, sc, rows[i], item); }
    }
  }

  /** One more column is added to every row. */
  lemma OneMoreRows(store: Store, ev: Evaluator, less: Less, sc: Scope, gp: GraphPattern, item: ReturnItem, rows: seq<Binding>)
    requires ItemAccepted(sc, item)
    ensures Rows(store, ev, less, OneMore(sc, gp, item), rows) <==> exists r :: Rows(store, ev, less, gp, r) && rows == MapColumn(ev, sc, r, item)
  {
    hide ItemAccepted, LoweredExpr, ExprAccepted, Column, IsVariableName, MapColumn, ExtendRows, NeedsExtend;
    ItemParts(sc, item);
    forall r: seq<Binding>
      ensures MapColumn(ev, sc, r, item) == if NeedsExtend(sc, item) then ExtendRows(ev, r, Column(item).value, LoweredExpr(sc, item.expr)) else r
    {
      MapColumnIs(ev, sc, r, item);
    }
    if NeedsExtend(sc, item) { ExtendIs(store, ev, less, gp, Column(item).value, LoweredExpr(sc, item.expr), rows); }
  }

  lemma ItemParts(sc: Scope, item: ReturnItem)
    ensures ItemAccepted(sc, item) ==> Column(item).Some? && ExprAccepted(sc, item.expr)
  {
  }

  lemma ExtendIs(store: Store, ev: Evaluator, less: Less, gp: GraphPattern, v: Var, e: SExpr, rows: seq<Binding>)
    ensures Rows(store, ev, less, Extend(gp, v, e), rows) <==> exists r :: Rows(store, ev, less, gp, r) && rows == ExtendRows(ev, r, v, e)
  {
    hide ExtendRows;
  }

  lemma NoColumnMore(ev: Evaluator, sc: Scope, row: Binding, item: ReturnItem)
    requires ItemAccepted(sc, item) && !NeedsExtend(sc, item)
    ensures WithColumn(ev, sc, row, item) == row
  {
  }

  lemma {:induction false} ExtendedRows(store: Store, ev: Evaluator, less: Less, sc: Scope, gp: GraphPattern, items: seq<ReturnItem>, rows: seq<Binding>)
    requires ItemsAccepted(sc, items)
    ensures Rows(store, ev, less, ExtendAll(gp, Extensions(sc, items)), rows)
            <==> exists r :: Rows(store, ev, less, gp, r) && rows == MapColumns(ev, sc, r, items)
    decreases |items|
  {
    hide LoweredExpr, ExprAccepted, Column, IsVariableName, ExtendAll, Extensions, Columns, Rows, OneMore, MapColumns, MapColumn;
    if items == [] {
      NoItems(sc, gp);
      forall r: seq<Binding> ensures MapColumns(ev, sc, r, []) == r { NoColumns(ev, sc, r); }
    } else {
      var n := |items| - 1;
      var front, item := items[..n], items[n];
      var inner := ExtendAll(gp, Extensions(sc, front));
      RowsGrow(sc, gp, items);
      OneMoreRows(store, ev, less, sc, inner, item, rows);
      if r :| Rows(store, ev, less, inner, r) && rows == MapColumn(ev, sc, r, item) {
        ExtendedRows(store, ev, less, sc, gp, front, r);
        var b :| Rows(store, ev, less, gp, b) && r == MapColumns(ev, sc, b, front);
        ColumnsAfterOne(ev, sc, b, items);
      }
      if b :| Rows(store, ev, less, gp, b) && rows == MapColumns(ev, sc, b, items) {
        ExtendedRows(store, ev, less, sc, gp, front, MapColumns(ev, sc, b, front));
        ColumnsAfterOne(ev, sc, b, items);
      }
    }
  }

  lemma NoColumns(ev: Evaluator, sc: Scope, rows: seq<Binding>)
    ensures MapColumns(ev, sc, rows, []) == rows
  {
  }

  lemma ColumnsAfterOne(ev: Evaluator, sc: Scope, rows: seq<Binding>, items: seq<ReturnItem>)
    requires ItemsAccepted(sc, items) && items != []
    ensures ItemAccepted(sc, items[|items| - 1])
    ensures MapColumns(ev, sc, rows, items) == MapColumn(ev, sc, MapColumns(ev, sc, rows, items[..|items| - 1]), items[|items| - 1])
  {
    hide ItemAccepted, WithColumn;
    assert ItemAccepted(sc, items[|items| - 1]);
  }

  lemma MatchRows(store: Store, ev: Evaluator, less: Less, gp: GraphPattern, rows: seq<Binding>)
    requires IsMatch(gp)
    ensures Rows(store, ev, less, gp, rows) <==> NoRepeats(rows) && forall m :: m in rows <==> Solution(store, ev, gp, m)
  {
    hide Solution;
  }

  /** Every full row once. */
  ghost predicate ListsRows(store: Store, ev: Evaluator, q: Query, rows: seq<Binding>)
    requires QueryAccepted(q)
  {
    NoRepeats(rows) && forall r :: r in rows <==> Solution(store, ev, QueryRows(q), r)
  }

  lemma FullRowSolution(store: Store, ev: Evaluator, q: Query, r: Binding)
    requires QueryAccepted(q)
    ensures Solution(store, ev, QueryRows(q), r) <==> exists m :: Solution(store, ev, Base(q), m) && r == FullRow(ev, q, m)
  {
    hide Solution, Selection, ExtendAll, Extensions, QueryReads, Accepted, KeysAccepted, WhereAccepted, WithColumns;
    RowsExtend(store, ev, ScopeOf(q.pattern, 0), Base(q), q.items, r);
  }

  lemma FullRowsDiffer(store: Store, ev: Evaluator, ops: Operators, q: Query, m: Binding, n: Binding)
    requires Proper(ev, ops, q) && Solution(store, ev, Base(q), m) && Solution(store, ev, Base(q), n)
    ensures FullRow(ev, q, m) == FullRow(ev, q, n) ==> m == n
  {
    hide Solution, Base, QueryReads, Evaluates, ColumnsAreNew, FullRow, Slots, PatternScope, ReadVars;
    SolutionVars(store, ev, ops, q, m);
    SolutionVars(store, ev, ops, q, n);
  }

  /** A solution for each full row. */
  lemma {:induction false} SolutionsOf(store: Store, ev: Evaluator, q: Query, rows: seq<Binding>) returns (b: seq<Binding>)
    requires QueryAccepted(q) && forall r :: r in rows ==> Solution(store, ev, QueryRows(q), r)
    ensures |b| == |rows| && forall i :: 0 <= i < |rows| ==> Solution(store, ev, Base(q), b[i]) && FullRow(ev, q, b[i]) == rows[i]
    decreases |rows|
  {
    hide Solution, Base, QueryRows, FullRow, QueryAccepted;
    if rows == [] { b := []; }
    else {
      var n := |rows| - 1;
      assert rows[n] in rows;
      FullRowSolution(store, ev, q, rows[n]);
      var m :| Solution(store, ev, Base(q), m) && rows[n] == FullRow(ev, q, m);
      var front := SolutionsOf(store, ev, q, rows[..n]);
      b := front + [m];
    }
  }

  lemma FullRowsListed(store: Store, ev: Evaluator, ops: Operators, less: Less, q: Query, rows: seq<Binding>)
    requires Proper(ev, ops, q)
    ensures Rows(store, ev, less, QueryRows(q), rows) <==> ListsRows(store, ev, q, rows)
  {
    hide Solution, Rows, Selection, ExtendAll, Extensions, QueryReads, Evaluates, ColumnsAreNew, Anchored, WithColumns, Accepted, ItemsAccepted, KeysAccepted,
         WhereAccepted;
    var sc := ScopeOf(q.pattern, 0);
    assert IsMatch(Base(q)) by { SelectionScope(q.pattern, q.where_, QueryReads(q)); }
    ExtendedRows(store, ev, less, sc, Base(q), q.items, rows);
    if Rows(store, ev, less, QueryRows(q), rows) {
      var b :| Rows(store, ev, less, Base(q), b) && rows == MapColumns(ev, sc, b, q.items);
      MatchRows(store, ev, less, Base(q), b);
      RowsAreListed(store, ev, ops, q, b, rows);
    }
    if ListsRows(store, ev, q, rows) {
      var b := SolutionsOf(store, ev, q, rows);
      forall m, n | Solution(store, ev, Base(q), m) && Solution(store, ev, Base(q), n) && FullRow(ev, q, m) == FullRow(ev, q, n) ensures m == n {
        FullRowsDiffer(store, ev, ops, q, m, n);
      }
      SolutionsAreListed(store, ev, q, b, rows);
      MatchRows(store, ev, less, Base(q), b);
      assert rows == MapColumns(ev, sc, b, q.items);
    }
  }

  lemma RowsAreListed(store: Store, ev: Evaluator, ops: Operators, q: Query, b: seq<Binding>, rows: seq<Binding>)
    requires Proper(ev, ops, q) && NoRepeats(b) && (forall m :: m in b <==> Solution(store, ev, Base(q), m))
    requires |rows| == |b| && forall i :: 0 <= i < |b| ==> rows[i] == FullRow(ev, q, b[i])
    ensures ListsRows(store, ev, q, rows)
  {
    hide Solution, Base, QueryRows, FullRow, Proper, QueryAccepted;
    assert QueryAccepted(q) by { ProperAccepted(ev, ops, q); }
    forall i, j | 0 <= i < j < |rows| ensures rows[i] != rows[j] {
      assert b[i] in b && b[j] in b;
      FullRowsDiffer(store, ev, ops, q, b[i], b[j]);
    }
    forall r ensures r in rows <==> Solution(store, ev, QueryRows(q), r) {
      FullRowSolution(store, ev, q, r);
      if r in rows {
        var i :| 0 <= i < |rows| && rows[i] == r;
        assert b[i] in b;
      }
      if m :| Solution(store, ev, Base(q), m) && r == FullRow(ev, q, m) {
        var i :| 0 <= i < |b| && b[i] == m;
        assert rows[i] == r;
      }
    }
  }

  lemma ProperAccepted(ev: Evaluator, ops: Operators, q: Query)
    requires Proper(ev, ops, q)
    ensures QueryAccepted(q)
  {
  }

  lemma SolutionsAreListed(store: Store, ev: Evaluator, q: Query, b: seq<Binding>, rows: seq<Binding>)
    requires QueryAccepted(q) && ListsRows(store, ev, q, rows) && |b| == |rows|
    requires forall i :: 0 <= i < |rows| ==> Solution(store, ev, Base(q), b[i]) && FullRow(ev, q, b[i]) == rows[i]
    requires forall m, n :: Solution(store, ev, Base(q), m) && Solution(store, ev, Base(q), n) && FullRow(ev, q, m) == FullRow(ev, q, n) ==> m == n
    ensures NoRepeats(b) && forall m :: m in b <==> Solution(store, ev, Base(q), m)
  {
    hide Solution, Base, QueryRows, FullRow, QueryAccepted;
    forall m | Solution(store, ev, Base(q), m) ensures m in b {
      FullRowSolution(store, ev, q, FullRow(ev, q, m));
      assert FullRow(ev, q, m) in rows;
      var i :| 0 <= i < |rows| && rows[i] == FullRow(ev, q, m);
      assert b[i] == m;
    }
  }

  // ---- Ordering ----

  lemma OrderedRows(store: Store, ev: Evaluator, ops: Operators, less: Less, q: Query, keys: seq<OrderKey>, rows: seq<Binding>)
    requires Proper(ev, ops, q)
    ensures Rows(store, ev, less, Ordered(QueryRows(q), keys), rows) <==> ListsRows(store, ev, q, rows) && ByKeys(ev, less, keys, rows)
  {
    hide Solution, QueryRows, Evaluates, ColumnsAreNew, Anchored, QueryAccepted, QueryReads;
    FullRowsListed(store, ev, ops, less, q, rows);
    if keys != [] {
      OrderedIs(store, ev, less, QueryRows(q), keys, rows);
      if r :| Rows(store, ev, less, QueryRows(q), r) && Rearranged(r, rows) {
        FullRowsListed(store, ev, ops, less, q, r);
        RearrangedLists(r, rows);
      }
    }
  }

  lemma OrderedIs(store: Store, ev: Evaluator, less: Less, gp: GraphPattern, keys: seq<OrderKey>, rows: seq<Binding>)
    requires keys != []
    ensures Rows(store, ev, less, Ordered(gp, keys), rows)
            <==> (exists r :: Rows(store, ev, less, gp, r) && Rearranged(r, rows)) && ByKeys(ev, less, keys, rows)
  {
    hide ByKeys, Rearranged;
    assert Ordered(gp, keys) == OrderBy(gp, keys);
  }

  // ---- Matches and full rows correspond ----

  /** `r` is the full row of the match `x`. */
  ghost predicate Pairs(store: Store, ev: Evaluator, q: Query, x: Match, r: Binding)
    requires QueryAccepted(q)
  {
    exists m :: Solution(store, ev, Base(q), m) && ReadAs(q, m, x) && FullRow(ev, q, m) == r
  }

  predicate ReadAs(q: Query, m: Binding, x: Match) {
    Slots(q.pattern, 0, |q.pattern.hops|) <= m.Keys && ReadNames(QueryReads(q)) <= m.Keys && MatchFor(q, m) == x
  }

  lemma PairUnique(store: Store, ev: Evaluator, ops: Operators, q: Query, x: Match, r: Binding, y: Match, t: Binding)
    requires Proper(ev, ops, q) && Pairs(store, ev, q, x, r) && Pairs(store, ev, q, y, t)
    ensures x == y <==> r == t
  {
    hide Solution, Base, QueryReads, Evaluates, ColumnsAreNew, FullRow, Slots, PatternScope, ReadVars, MatchFor, QueryAccepted, Anchored, ReadNames;
    var m :| Solution(store, ev, Base(q), m) && ReadAs(q, m, x) && FullRow(ev, q, m) == r;
    var n :| Solution(store, ev, Base(q), n) && ReadAs(q, n, y) && FullRow(ev, q, n) == t;
    FullRowsDiffer(store, ev, ops, q, m, n);
    SolutionVars(store, ev, ops, q, m);
    SolutionVars(store, ev, ops, q, n);
    if x == y { SameMatchSameSolution(q, m, n); }
  }

  lemma PairOfMatch(store: Store, ev: Evaluator, ops: Operators, q: Query, x: Match) returns (r: Binding)
    requires Proper(ev, ops, q) && IsMatchOf(store, ops, q, x)
    ensures Pairs(store, ev, q, x, r) && Solution(store, ev, QueryRows(q), r)
  {
    hide Solution, Base, QueryReads, Evaluates, ColumnsAreNew, FullRow, Slots, PatternScope, ReadVars, MatchFor, QueryAccepted, Anchored, ReadNames, QueryRows,
         IsMatchOf;
    var m := MatchIsSolution(store, ev, ops, q, x);
    r := FullRow(ev, q, m);
    FullRowSolution(store, ev, q, r);
  }

  lemma PairOfRow(store: Store, ev: Evaluator, ops: Operators, q: Query, r: Binding) returns (x: Match)
    requires Proper(ev, ops, q) && Solution(store, ev, QueryRows(q), r)
    ensures Pairs(store, ev, q, x, r) && IsMatchOf(store, ops, q, x)
  {
    hide Solution, Base, QueryReads, Evaluates, ColumnsAreNew, FullRow, Slots, PatternScope, ReadVars, MatchFor, QueryAccepted, Anchored, ReadNames, QueryRows,
         IsMatchOf;
    FullRowSolution(store, ev, q, r);
    var m :| Solution(store, ev, Base(q), m) && r == FullRow(ev, q, m);
    SolutionIsMatch(store, ev, ops, q, m);
    x := MatchFor(q, m);
  }

  /** What the row shows is what the match means. */
  lemma PairMeans(store: Store, ev: Evaluator, ops: Operators, q: Query, x: Match, r: Binding)
    requires Proper(ev, ops, q) && Pairs(store, ev, q, x, r)
    ensures IsMatchOf(store, ops, q, x) && Shaped(q.pattern, x.a) && Solution(store, ev, QueryRows(q), r)
    ensures ReadsAs(q.pattern, r, x.a, x.vals) && x.vals.Keys == ToSet(QueryReads(q))
    ensures Restrict(r, Vars(Columns(q.items))) == RowOf(ops, q.pattern, x.a, x.vals, q.items)
  {
    hide Solution, Selection, QueryReads, Evaluates, ColumnsAreNew, WithColumns, Slots, PatternScope, ReadVars, Accepted, ItemsAccepted, KeysAccepted,
         WhereAccepted, Anchored, ReadNames, QueryRows, IsMatchOf, ReadsAs, RowOf, Keeps, UserVars, Columns, Vars;
    var m :| Solution(store, ev, Base(q), m) && ReadAs(q, m, x) && FullRow(ev, q, m) == r;
    SolutionIsMatch(store, ev, ops, q, m);
    SolutionVars(store, ev, ops, q, m);
    FullRowSolution(store, ev, q, r);
    MoreReadsAs(q.pattern, m, r, x.a, x.vals);
    RowOfSolution(store, ev, ops, q, m, x.a, x.vals);
  }

  ghost predicate AllPair(store: Store, ev: Evaluator, q: Query, ms: seq<Match>, rows: seq<Binding>)
    requires QueryAccepted(q)
  {
    |ms| == |rows| && forall i :: 0 <= i < |ms| ==> Pairs(store, ev, q, ms[i], rows[i])
  }

  lemma {:induction false} MatchesOf(store: Store, ev: Evaluator, ops: Operators, q: Query, rows: seq<Binding>) returns (ms: seq<Match>)
    requires Proper(ev, ops, q) && forall r :: r in rows ==> Solution(store, ev, QueryRows(q), r)
    ensures AllPair(store, ev, q, ms, rows)
    decreases |rows|
  {
    hide Proper, Solution, QueryRows, Pairs, QueryAccepted;
    ProperAccepted(ev, ops, q);
    if rows == [] { ms := []; }
    else {
      var n := |rows| - 1;
      assert rows[n] in rows;
      var x := PairOfRow(store, ev, ops, q, rows[n]);
      var front := MatchesOf(store, ev, ops, q, rows[..n]);
      ms := front + [x];
    }
  }

  lemma {:induction false} FullRowsOf(store: Store, ev: Evaluator, ops: Operators, q: Query, ms: seq<Match>) returns (rows: seq<Binding>)
    requires Proper(ev, ops, q) && forall x :: x in ms ==> IsMatchOf(store, ops, q, x)
    ensures AllPair(store, ev, q, ms, rows)
    decreases |ms|
  {
    hide Proper, Solution, QueryRows, Pairs, QueryAccepted, IsMatchOf;
    ProperAccepted(ev, ops, q);
    if ms == [] { rows := []; }
    else {
      var n := |ms| - 1;
      assert ms[n] in ms;
      var r := PairOfMatch(store, ev, ops, q, ms[n]);
      var front := FullRowsOf(store, ev, ops, q, ms[..n]);
      rows := front + [r];
    }
  }

  /** Listing all matches once is listing all full rows once. */
  lemma ListedTogether(store: Store, ev: Evaluator, ops: Operators, q: Query, ms: seq<Match>, rows: seq<Binding>)
    requires Proper(ev, ops, q) && AllPair(store, ev, q, ms, rows)
    ensures ListsRows(store, ev, q, rows) <==> NoRepeats(ms) && forall x :: x in ms <==> IsMatchOf(store, ops, q, x)
  {
    hide Proper, Solution, QueryRows, Pairs, QueryAccepted, IsMatchOf;
    ProperAccepted(ev, ops, q);
    forall i, j | 0 <= i < |ms| && 0 <= j < |ms| ensures ms[i] == ms[j] <==> rows[i] == rows[j] {
      PairUnique(store, ev, ops, q, ms[i], rows[i], ms[j], rows[j]);
    }
    forall i | 0 <= i < |ms| ensures IsMatchOf(store, ops, q, ms[i]) && Solution(store, ev, QueryRows(q), rows[i]) {
      PairMeans(store, ev, ops, q, ms[i], rows[i]);
    }
    if forall r :: r in rows <==> Solution(store, ev, QueryRows(q), r) {
      forall x | IsMatchOf(store, ops, q, x) ensures x in ms {
        var r := PairOfMatch(store, ev, ops, q, x);
        var i :| 0 <= i < |rows| && rows[i] == r;
        PairUnique(store, ev, ops, q, x, r, ms[i], rows[i]);
      }
    }
    if forall x :: x in ms <==> IsMatchOf(store, ops, q, x) {
      forall r | Solution(store, ev, QueryRows(q), r) ensures r in rows {
        var x := PairOfRow(store, ev, ops, q, r);
        var i :| 0 <= i < |ms| && ms[i] == x;
        PairUnique(store, ev, ops, q, x, r, ms[i], rows[i]);
      }
    }
  }

  // ---- Order, repetitions, slices ----

  lemma {:induction false} LoweredKeysAre(sc: Scope, keys: seq<OrderItem>, i: nat)
    requires KeysAccepted(sc, keys) && i < |keys|
    ensures |LoweredKeys(sc, keys)| == |keys| && LoweredKeys(sc, keys)[i] == OrderKey(LoweredExpr(sc, keys[i].expr), keys[i].descending)
    decreases |keys|
  {
    hide LoweredExpr, ExprAccepted;
    var n := |keys| - 1;
    if n > 0 { LoweredKeysAre(sc, keys[..n], if i < n then i else 0); }
  }

  lemma LoweredKeysCount(sc: Scope, keys: seq<OrderItem>)
    requires KeysAccepted(sc, keys)
    ensures |LoweredKeys(sc, keys)| == |keys|
  {
    if keys != [] { LoweredKeysAre(sc, keys, 0); }
  }

  lemma KeyValue(store: Store, ev: Evaluator, ops: Operators, q: Query, x: Match, r: Binding, i: nat)
    requires Proper(ev, ops, q) && Pairs(store, ev, q, x, r) && i < |q.orderBy|
    ensures Shaped(q.pattern, x.a) && ExprAccepted(ScopeOf(q.pattern, 0), q.orderBy[i].expr)
    ensures ev(LoweredExpr(ScopeOf(q.pattern, 0), q.orderBy[i].expr), r) == CypherValue(ops, q.pattern, x.a, x.vals, q.orderBy[i].expr)
  {
    hide Pairs, Accepted, ItemsAccepted, WhereAccepted, ExprAccepted, LoweredExpr, CypherValue, SparqlValue, ReadsAs, QueryReads, ColumnsAreNew, Anchored,
         NeNegatesEq, Reads, IsMatchOf, RowOf, Columns, QueryRows, Solution, Vars, Restrict, PropVar;
    PairMeans(store, ev, ops, q, x, r);
    KeyReadsKnown(q, i);
    ExprKeepsMeaning(ops, q.pattern, r, x.a, x.vals, q.orderBy[i].expr);
  }

  lemma KeyReadsKnown(q: Query, i: nat)
    requires QueryAccepted(q) && i < |q.orderBy|
    ensures forall k :: k in Reads(q.orderBy[i].expr) ==> k in QueryReads(q)
  {
    hide Reads, ItemReads;
    forall k | k in Reads(q.orderBy[i].expr) ensures k in QueryReads(q) { KeyReadsHave(q.orderBy, i, k); }
  }

  lemma {:induction false} KeyReadsHave(keys: seq<OrderItem>, i: nat, k: Key)
    requires i < |keys| && k in Reads(keys[i].expr)
    ensures k in KeyReads(keys)
    decreases |keys|
  {
    hide Reads;
    if i < |keys| - 1 { KeyReadsHave(keys[..|keys| - 1], i, k); }
  }

  /** The lowered keys order rows as ORDER BY orders matches. */
  lemma {:induction false} SameOrder(store: Store, ev: Evaluator, ops: Operators, less: Less, q: Query, i: nat, x: Match, r: Binding, y: Match, t: Binding)
    requires Proper(ev, ops, q) && Pairs(store, ev, q, x, r) && Pairs(store, ev, q, y, t) && Shaped(q.pattern, x.a) && Shaped(q.pattern, y.a)
    requires KeysAccepted(ScopeOf(q.pattern, 0), q.orderBy)
    ensures ComesBefore(ops, less, q, i, x, y) <==> Precedes(ev, less, LoweredKeys(ScopeOf(q.pattern, 0), q.orderBy), i, r, t)
    decreases |q.orderBy| - i
  {
    hide Proper, Pairs, KeysAccepted, ExprAccepted, LoweredExpr, LoweredKeys, CypherValue, ScopeOf;
    var sc := ScopeOf(q.pattern, 0);
    LoweredKeysCount(sc, q.orderBy);
    if i < |q.orderBy| {
      LoweredKeysAre(sc, q.orderBy, i);
      KeyValue(store, ev, ops, q, x, r, i);
      KeyValue(store, ev, ops, q, y, t, i);
      SameOrder(store, ev, ops, less, q, i + 1, x, r, y, t);
    }
  }

  lemma ArrangedTogether(store: Store, ev: Evaluator, ops: Operators, less: Less, q: Query, ms: seq<Match>, rows: seq<Binding>)
    requires Proper(ev, ops, q) && QueryAccepted(q) && AllPair(store, ev, q, ms, rows)
    ensures Arranged(store, ops, less, q, ms)
            <==> ListsRows(store, ev, q, rows) && ByKeys(ev, less, LoweredKeys(ScopeOf(q.pattern, 0), q.orderBy), rows)
    ensures RowsOf(ops, q, ms, ProjectRows(rows, Vars(Columns(q.items))))
  {
    hide Proper, Pairs, LoweredKeys, ComesBefore, Precedes, IsMatchOf, ListsRows, Accepted, Column, IsVariableName, ExprAccepted,
         WhereAccepted, RowOf, Columns, Vars, Restrict,
         ReadsAs, QueryRows, Solution, QueryReads;
    ListedTogether(store, ev, ops, q, ms, rows);
    forall i | 0 <= i < |ms|
      ensures Shaped(q.pattern, ms[i].a) && Restrict(rows[i], Vars(Columns(q.items))) == RowOf(ops, q.pattern, ms[i].a, ms[i].vals, q.items)
    {
      PairMeans(store, ev, ops, q, ms[i], rows[i]);
    }
    var keys := LoweredKeys(ScopeOf(q.pattern, 0), q.orderBy);
    forall i, j | 0 <= i < |ms| && 0 <= j < |ms| ensures ComesBefore(ops, less, q, 0, ms[j], ms[i]) <==> Precedes(ev, less, keys, 0, rows[j], rows[i]) {
      SameOrder(store, ev, ops, less, q, 0, ms[j], rows[j], ms[i], rows[i]);
    }
  }

  /** The rows after projection. */
  function Projected(q: Query): GraphPattern
    requires QueryAccepted(q)
  {
    Project(Ordered(QueryRows(q), LoweredKeys(ScopeOf(q.pattern, 0), q.orderBy)), Columns(q.items))
  }

  lemma ProjectedRows(store: Store, ev: Evaluator, ops: Operators, less: Less, q: Query, cells: seq<Binding>)
    requires Proper(ev, ops, q) && QueryAccepted(q)
    ensures Rows(store, ev, less, Projected(q), cells) <==> exists ms :: Arranged(store, ops, less, q, ms) && RowsOf(ops, q, ms, cells)
  {
    hide Proper, Pairs, LoweredKeys, IsMatchOf, ListsRows, Accepted, Column, IsVariableName, ExprAccepted, WhereAccepted, RowOf, Columns,
         Restrict, QueryRows, Solution,
         QueryReads, ByKeys, Ordered, Arranged, RowsOf;
    var keys, names := LoweredKeys(ScopeOf(q.pattern, 0), q.orderBy), Vars(Columns(q.items));
    var inner := Ordered(QueryRows(q), keys);
    ProjectIs(store, ev, less, inner, Columns(q.items), cells);
    if r :| Rows(store, ev, less, inner, r) && cells == ProjectRows(r, names) {
      OrderedRows(store, ev, ops, less, q, keys, r);
      assert forall x :: x in r ==> Solution(store, ev, QueryRows(q), x) by { ListedAreSolutions(store, ev, q, r); }
      var ms := MatchesOf(store, ev, ops, q, r);
      ArrangedTogether(store, ev, ops, less, q, ms, r);
    }
    if ms :| Arranged(store, ops, less, q, ms) && RowsOf(ops, q, ms, cells) {
      assert forall x :: x in ms ==> IsMatchOf(store, ops, q, x) by { ArrangedAreMatches(store, ops, less, q, ms); }
      var r := FullRowsOf(store, ev, ops, q, ms);
      ArrangedTogether(store, ev, ops, less, q, ms, r);
      OrderedRows(store, ev, ops, less, q, keys, r);
      SameRows(ops, q, ms, cells, ProjectRows(r, names));
    }
  }

  lemma ProjectIs(store: Store, ev: Evaluator, less: Less, gp: GraphPattern, names: seq<Var>, cells: seq<Binding>)
    ensures Rows(store, ev, less, Project(gp, names), cells) <==> exists r :: Rows(store, ev, less, gp, r) && cells == ProjectRows(r, Vars(names))
  {
    hide ProjectRows;
    assert Vars(names) == set v | v in names;
  }

  lemma ListedAreSolutions(store: Store, ev: Evaluator, q: Query, rows: seq<Binding>)
    requires QueryAccepted(q) && ListsRows(store, ev, q, rows)
    ensures forall x :: x in rows ==> Solution(store, ev, QueryRows(q), x)
  {
  }

  lemma ArrangedAreMatches(store: Store, ops: Operators, less: Less, q: Query, ms: seq<Match>)
    requires Arranged(store, ops, less, q, ms)
    ensures forall x :: x in ms ==> IsMatchOf(store, ops, q, x)
  {
  }

  lemma SameRows(ops: Operators, q: Query, ms: seq<Match>, a: seq<Binding>, b: seq<Binding>)
    requires QueryAccepted(q) && RowsOf(ops, q, ms, a) && RowsOf(ops, q, ms, b)
    ensures a == b
  {
  }

  lemma DeduplicatedRows(store: Store, ev: Evaluator, less: Less, gp: GraphPattern, distinct: bool, d: seq<Binding>)
    ensures Rows(store, ev, less, Deduplicated(gp, distinct), d) <==> exists cells :: Rows(store, ev, less, gp, cells) && Kept(distinct, cells, d)
  {
    hide Distincts;
    if distinct { DistinctIs(store, ev, less, gp, d); } else { assert Kept(false, d, d); }
  }

  predicate Kept(distinct: bool, cells: seq<Binding>, d: seq<Binding>) { if distinct then Distincts(cells, d) else d == cells }

  lemma DistinctIs(store: Store, ev: Evaluator, less: Less, gp: GraphPattern, d: seq<Binding>)
    ensures Rows(store, ev, less, Distinct(gp), d) <==> exists cells :: Rows(store, ev, less, gp, cells) && Distincts(cells, d)
  {
    hide Distincts;
  }

  lemma SlicedRows(store: Store, ev: Evaluator, less: Less, gp: GraphPattern, q: Query, rows: seq<Binding>)
    ensures Rows(store, ev, less, Sliced(gp, q.skip, q.limit), rows)
            <==> exists d :: Rows(store, ev, less, gp, d) && rows == Clip(d, Start(q), q.limit)
  {
    if q.skip.None? && q.limit.None? {
      assert forall d: seq<Binding> :: Clip(d, 0, None) == d;
    }
  }

  lemma KeptIs(distinct: bool, cells: seq<Binding>, d: seq<Binding>)
    ensures Kept(distinct, cells, d) <==> if distinct then Once(cells, d) else d == cells
  {
    hide FirstOnes, Once;
    FirstOnesOnce(cells);
    if Once(cells, d) { OnceIsFirstOnes(cells, d); }
  }

  /** The modifiers, from the outside in. */
  lemma ModifiedRows(store: Store, ev: Evaluator, less: Less, q: Query, rows: seq<Binding>)
    requires QueryAccepted(q)
    ensures Rows(store, ev, less, QueryPattern(q), rows)
            <==> exists cells, d :: Rows(store, ev, less, Projected(q), cells) && Kept(q.distinct, cells, d) && rows == Clip(d, Start(q), q.limit)
  {
    hide Rows, Clip, Kept, Accepted, ItemsAccepted, WhereAccepted, KeysAccepted, Selection, ExtendAll, Extensions, LoweredKeys,
         Columns, QueryReads, Deduplicated, Sliced, Ordered, Start, QueryAccepted;
    var p, inner := Projected(q), Deduplicated(Projected(q), q.distinct);
    assert QueryPattern(q) == Sliced(inner, q.skip, q.limit) by { PatternIsSliced(q); }
    hide Projected, QueryPattern;
    SlicedRows(store, ev, less, inner, q, rows);
    if Rows(store, ev, less, QueryPattern(q), rows) {
      var d :| Rows(store, ev, less, inner, d) && rows == Clip(d, Start(q), q.limit);
      DeduplicatedRows(store, ev, less, p, q.distinct, d);
    }
    if cells, d :| Rows(store, ev, less, p, cells) && Kept(q.distinct, cells, d) && rows == Clip(d, Start(q), q.limit) {
      DeduplicatedRows(store, ev, less, p, q.distinct, d);
    }
  }

  lemma PatternIsSliced(q: Query)
    requires QueryAccepted(q)
    ensures QueryPattern(q) == Sliced(Deduplicated(Projected(q), q.distinct), q.skip, q.limit)
  {
    hide Selection, ExtendAll, Extensions, LoweredKeys, Columns, QueryReads, Accepted;
  }

  /** A query that is accepted, whose pattern binds its nodes and whose columns are new,
      returns exactly the rows it asks for, in a right order. */
  lemma QueryAnswers(store: Store, ev: Evaluator, ops: Operators, less: Less, q: Query, rows: seq<Binding>)
    requires Proper(ev, ops, q) && QueryAccepted(q)
    ensures Rows(store, ev, less, QueryPattern(q), rows) <==> Answers(store, ops, less, q, rows)
  {
    hide Proper, Rows, Clip, Kept, Once, Arranged, RowsOf, QueryAccepted, Section, Start, Projected, QueryPattern;
    ModifiedRows(store, ev, less, q, rows);
    if cells, d :| Rows(store, ev, less, Projected(q), cells) && Kept(q.distinct, cells, d) && rows == Clip(d, Start(q), q.limit) {
      ProjectedRows(store, ev, ops, less, q, cells);
      KeptIs(q.distinct, cells, d);
      ClipIs(d, q, rows);
    }
    if ms, cells, d :| Arranged(store, ops, less, q, ms) && RowsOf(ops, q, ms, cells) && (if q.distinct then Once(cells, d) else d == cells)
                          && Section(q, d, rows) {
      ProjectedRows(store, ev, ops, less, q, cells);
      KeptIs(q.distinct, cells, d);
      ClipIs(d, q, rows);
    }
  }

  /** When names do not collide, every match on which the WHERE is true is one of them. */
  lemma AllMatches(store: Store, ops: Operators, q: Query, x: Match)
    requires QueryAccepted(q) && NoCollision(q.pattern, 0) && ReadsApart(q.pattern, QueryReads(q))
    ensures IsMatchOf(store, ops, q, x)
            <==> Selected(store, ops, q.pattern, q.where_, QueryReads(q), x.a, x.env, x.vals) && Typed(q.pattern, x.a)
  {
    hide Accepted, QueryReads, AllAgree, Agrees, NoCollision, ReadsApart, ItemsAccepted, KeysAccepted, WhereAccepted, Homomorphism, TrueOn;
    if Selected(store, ops, q.pattern, q.where_, QueryReads(q), x.a, x.env, x.vals) {
      ReadsAreNamed(q);
      NoCollisionAgrees(store, q.pattern, 0, x.a, x.env);
      ApartAgrees(q.pattern, QueryReads(q), x.a, x.vals);
    }
  }
}
