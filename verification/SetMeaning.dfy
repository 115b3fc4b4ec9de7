/** What the lowered SET does to a store. */
module SetMeaning {
  import opened Options
  import opened CypherSyntax
  import opened Sparql
  import opened CypherMapping
  import opened MatchMeaning
  import opened ScopeSafety
  import opened ExprMeaning
  import opened WhereMeaning
  import opened WriteMeaning

  // ---- The operation over any base ----

  function SetOver(base: GraphPattern, v: Var, prop: string, old_: Var, new_: Var, e: SExpr): Update {
    DeleteInsert([PropPattern(v, prop, old_)], [PropPattern(v, prop, new_)], Extend(WithOld(base, v, prop, old_), new_, e))
  }

  /** The base binds the node and neither of the operation's own variables. */
  ghost predicate Settable(base: GraphPattern, v: Var, old_: Var, new_: Var) {
    IsMatch(base) && v in MatchVars(base) && old_ !in MatchVars(base) && new_ !in MatchVars(base) && old_ != new_
  }

  /** In some match of `x` as the node `v`, the expression has the value `y`. */
  ghost predicate Assigned(store: Store, ev: Evaluator, base: GraphPattern, v: Var, e: SExpr, x: Node, y: Node) {
    exists a :: Solution(store, ev, base, a) && v in a && a[v] == x && ev(e, a) == Some(y)
  }

  /** Optional old values: a match stays, with or without one. */
  lemma WithOldSplits(store: Store, ev: Evaluator, base: GraphPattern, v: Var, prop: string, old_: Var, l: Binding) returns (a: Binding)
    requires IsMatch(base) && v in MatchVars(base) && Solution(store, ev, WithOld(base, v, prop, old_), l)
    ensures Solution(store, ev, base, a) && a.Keys == MatchVars(base) && (forall x :: x in a ==> x in l && l[x] == a[x])
    ensures l.Keys <= MatchVars(base) + {v, old_}
  {
    hide IsMatch, MatchVars, PropIri;
    var d := PropPattern(v, prop, old_);
    SingleVars(d);
    if x, y :| Solution(store, ev, base, x) && Solution(store, ev, Bgp([d]), y) && Compatible(x, y) && l == x + y { a := x; }
    else { a := l; }
    SolutionBindsAll(store, ev, base, a);
  }

  lemma WithOldExtends(store: Store, ev: Evaluator, base: GraphPattern, v: Var, prop: string, old_: Var, a: Binding) returns (l: Binding)
    requires IsMatch(base) && Solution(store, ev, base, a)
    ensures Solution(store, ev, WithOld(base, v, prop, old_), l) && l.Keys <= a.Keys + {v, old_} && forall x :: x in a ==> x in l && l[x] == a[x]
  {
    hide IsMatch, PropIri;
    var right := Bgp([PropPattern(v, prop, old_)]);
    SingleVars(PropPattern(v, prop, old_));
    if b :| Solution(store, ev, right, b) && Compatible(a, b) { l := a + b; } else { l := a; }
  }

  lemma ExtendInner(store: Store, ev: Evaluator, inner: GraphPattern, v: Var, e: SExpr, b: Binding) returns (a: Binding)
    requires Solution(store, ev, Extend(inner, v, e), b)
    ensures Solution(store, ev, inner, a) && b == if ev(e, a).Some? then a[v := ev(e, a).value] else a
  {
    a :| Solution(store, ev, inner, a) && b == if ev(e, a).Some? then a[v := ev(e, a).value] else a;
  }

  lemma ExtendSolves(store: Store, ev: Evaluator, inner: GraphPattern, v: Var, e: SExpr, a: Binding) returns (b: Binding)
    requires Solution(store, ev, inner, a)
    ensures Solution(store, ev, Extend(inner, v, e), b) && b == if ev(e, a).Some? then a[v := ev(e, a).value] else a
  {
    b := if ev(e, a).Some? then a[v := ev(e, a).value] else a;
  }

  predicate Extends(a: Binding, l: Binding, bound: set<Var>) { l.Keys <= bound && forall x :: x in a ==> x in l && l[x] == a[x] }

  /** Every solution of the operation goes back to a match. */
  lemma SetSolution(store: Store, ev: Evaluator, base: GraphPattern, v: Var, prop: string, old_: Var, new_: Var, e: SExpr, b: Binding)
      returns (a: Binding)
    requires Settable(base, v, old_, new_) && Solution(store, ev, Extend(WithOld(base, v, prop, old_), new_, e), b)
    ensures Solution(store, ev, base, a) && a.Keys == MatchVars(base) && (forall x :: x in a ==> x in b && b[x] == a[x])
    ensures new_ in b ==> exists l: Binding :: Extends(a, l, MatchVars(base) + {v, old_}) && ev(e, l) == Some(b[new_])
  {
    hide IsMatch, MatchVars, WithOld, Solution;
    var l := ExtendInner(store, ev, WithOld(base, v, prop, old_), new_, e, b);
    a := WithOldSplits(store, ev, base, v, prop, old_, l);
    assert new_ !in l && Extends(a, l, MatchVars(base) + {v, old_});
  }

  /** Exactly the present values of the property of matched nodes are deleted. */
  lemma SetDeletes(store: Store, ev: Evaluator, base: GraphPattern, v: Var, prop: string, old_: Var, new_: Var, e: SExpr, t: Triple)
    requires Settable(base, v, old_, new_) && t in store
    ensures Deleted(store, ev, SetOver(base, v, prop, old_, new_, e), t) <==> t.p == PropIri(prop) && Hit(store, ev, base, v, t.s)
  {
    hide IsMatch, MatchVars, PropIri, Solution, WithOld;
    var op, d := SetOver(base, v, prop, old_, new_, e), PropPattern(v, prop, old_);
    if Deleted(store, ev, op, t) {
      var b, d' :| Solution(store, ev, op.pattern, b) && Produces(op.delete, d', b, t);
      var a := SetSolution(store, ev, base, v, prop, old_, new_, e, b);
      assert a[v] == t.s;
    }
    if t.p == PropIri(prop) && Hit(store, ev, base, v, t.s) {
      var l := OldIsFound(store, ev, base, v, prop, old_, t);
      var b := ExtendSolves(store, ev, WithOld(base, v, prop, old_), new_, e, l);
      assert v != new_;
      assert Produces([d], d, b, t);
    }
  }

  lemma OldIsFound(store: Store, ev: Evaluator, base: GraphPattern, v: Var, prop: string, old_: Var, t: Triple) returns (l: Binding)
    requires IsMatch(base) && v in MatchVars(base) && old_ !in MatchVars(base)
    requires t in store && t.p == PropIri(prop) && Hit(store, ev, base, v, t.s)
    ensures Solution(store, ev, WithOld(base, v, prop, old_), l) && v in l && l[v] == t.s && old_ in l && l[old_] == t.o
  {
    hide IsMatch, MatchVars, PropIri;
    var a :| Solution(store, ev, base, a) && v in a && a[v] == t.s;
    SolutionBindsAll(store, ev, base, a);
    var b: Binding := map[v := t.s, old_ := t.o];
    var d := PropPattern(v, prop, old_);
    assert InstTriple(d, b) == t;
    SingleVars(d);
    assert Matches(store, d, b) && Solution(store, ev, Bgp([d]), b) && Compatible(a, b);
    l := a + b;
  }

  /** Exactly the values the expression has in some match are inserted. */
  lemma SetInserts(store: Store, ev: Evaluator, base: GraphPattern, v: Var, prop: string, old_: Var, new_: Var, e: SExpr, t: Triple)
    requires Settable(base, v, old_, new_) && Local(ev) && old_ !in ExprVars(e)
    ensures Inserted(store, ev, SetOver(base, v, prop, old_, new_, e), t)
            <==> t.p == PropIri(prop) && !t.s.Value? && Assigned(store, ev, base, v, e, t.s, t.o)
  {
    hide IsMatch, MatchVars, PropIri, Solution, WithOld;
    var op, d := SetOver(base, v, prop, old_, new_, e), PropPattern(v, prop, new_);
    if Inserted(store, ev, op, t) {
      var b, d' :| Solution(store, ev, op.pattern, b) && Produces(op.insert, d', b, t);
      var a := SetSolution(store, ev, base, v, prop, old_, new_, e, b);
      var l: Binding :| Extends(a, l, MatchVars(base) + {v, old_}) && ev(e, l) == Some(b[new_]);
      assert SameOn(ExprVars(e), a, l);
      assert a[v] == t.s && ev(e, a) == Some(t.o);
    }
    if t.p == PropIri(prop) && !t.s.Value? && Assigned(store, ev, base, v, e, t.s, t.o) {
      AssignedIsInserted(store, ev, base, v, prop, old_, new_, e, t);
    }
  }

  lemma AssignedIsInserted(store: Store, ev: Evaluator, base: GraphPattern, v: Var, prop: string, old_: Var, new_: Var, e: SExpr, t: Triple)
    requires Settable(base, v, old_, new_) && Local(ev) && old_ !in ExprVars(e)
    requires t.p == PropIri(prop) && !t.s.Value? && Assigned(store, ev, base, v, e, t.s, t.o)
    ensures Inserted(store, ev, SetOver(base, v, prop, old_, new_, e), t)
  {
    hide IsMatch, MatchVars, PropIri, Solution, WithOld;
    var d := PropPattern(v, prop, new_);
    var a :| Solution(store, ev, base, a) && v in a && a[v] == t.s && ev(e, a) == Some(t.o);
    SolutionBindsAll(store, ev, base, a);
    var l := WithOldExtends(store, ev, base, v, prop, old_, a);
    assert SameOn(ExprVars(e), a, l);
    var b := ExtendSolves(store, ev, WithOld(base, v, prop, old_), new_, e, l);
    assert Produces([d], d, b, t);
    assert Legal(t) by { PropIriIsIri(prop); }
  }

  lemma PropIriIsIri(prop: string)
    ensures PropIri(prop).Iri?
  {
  }

  /** A value that is an error wherever `u` is unbound. */
  ghost predicate Strict(ev: Evaluator, e: SExpr, u: Var) { forall b: Binding :: u !in b ==> ev(e, b) == None }

  /** A value that uses a variable that nothing binds is never inserted. */
  lemma UnscopedInsertsNothing(store: Store, ev: Evaluator, base: GraphPattern, v: Var, prop: string, old_: Var, new_: Var, e: SExpr, u: Var, t: Triple)
    requires Settable(base, v, old_, new_) && Strict(ev, e, u) && u !in MatchVars(base) + {v, old_}
    ensures !Inserted(store, ev, SetOver(base, v, prop, old_, new_, e), t)
  {
    hide IsMatch, MatchVars, PropIri, Solution, WithOld;
    var op := SetOver(base, v, prop, old_, new_, e);
    if Inserted(store, ev, op, t) {
      var b, d' :| Solution(store, ev, op.pattern, b) && Produces(op.insert, d', b, t);
      var a := SetSolution(store, ev, base, v, prop, old_, new_, e, b);
      assert false;
    }
  }

  // ---- The SET of a statement ----

  lemma SetNamesDiffer(c: nat)
    ensures FreshName("set_old", c) != FreshName("set_val", c + 1)
  {
    assert FreshName("set_old", c)[5] == 'o' && FreshName("set_val", c + 1)[5] == 'v';
  }

  /** The lowered operation is one of these. */
  lemma StatementSet(s: Statement, p: Pattern, v: Var, prop: string, value: Expr, c: nat)
    requires MatchAccepted(s) && s.pattern == Some(p) && BindsNodes(s, p) && ClearNames(p)
    requires WriteAccepted(MatchOf(s), SetProperty(v, prop, value))
    ensures Settable(MatchOf(s).base, v, FreshName("set_old", c), FreshName("set_val", c + 1))
    ensures MatchVars(MatchOf(s).base) == BaseScopeOf(s, p)
    ensures SetPropertyOp(MatchOf(s), v, prop, value, c)
            == SetOver(MatchOf(s).base, v, prop, FreshName("set_old", c), FreshName("set_val", c + 1), LoweredExpr(MatchOf(s).scope, value))
  {
    hide MatchOf, MatchAccepted, ClearNames, BindsNodes, FreshName, InScope, WellScoped, MatchVars, IsMatch, BaseScopeOf, PropIri, LoweredExpr, ExprAccepted;
    MatchScope(s, p);
    LoneTarget(s, p, v);
    ScopeIsVars(MatchOf(s).base);
    WriteNameIsFresh(s, p, "set_old", c);
    WriteNameIsFresh(s, p, "set_val", c + 1);
    SetNamesDiffer(c);
  }

  /** With clear names an expression never uses the variable of the old value. */
  lemma OldIsNotUsed(s: Statement, p: Pattern, value: Expr, c: nat)
    requires MatchAccepted(s) && s.pattern == Some(p) && ClearNames(p) && ExprAccepted(MatchOf(s).scope, value)
    ensures FreshName("set_old", c) !in ExprVars(LoweredExpr(MatchOf(s).scope, value))
  {
    hide FreshName, Accepted, LoweredExpr, Selection, RelEnds, RelBindings, CounterAfter, ReadVars, Slots, UserVars, NodeNames, ExprAccepted, PropVar, ExprVars,
         Clear, WhereReads, Reads;
    var old_, used := FreshName("set_old", c), Reads(value);
    ExprVarsCovered(p, value, Slots(p, 0, |p.hops|) + ReadVars(used));
    if old_ in Slots(p, 0, |p.hops|) {
      SlotsAre(p, |p.hops|, old_);
      MadeUpNames("set_old", c, old_);
    }
    if old_ in ReadVars(used) {
      ReadVarsAre(used, old_);
      var k :| k in used && old_ in KeyNames(k);
      ReadsAreUsed(ScopeOf(p, 0), value, k);
      NodeNamesAreUserVars(p, |p.hops|);
      PropVarIsNew(k, "set_old", c);
      FreshIsNotClear("set_old", c);
    }
  }

  lemma FreshIsNotClear(prefix: string, n: nat)
    ensures !Clear(FreshName(prefix, n))
  {
    assert FreshName(prefix, n)[0] == '_';
  }

  /** MATCH .. WHERE .. SET v.prop = value: afterwards the values of the property are, for
      each matched node, exactly those the lowered expression has in its matches, and all
      other triples are as they were. */
  lemma SetAssigns(store: Store, ev: Evaluator, s: Statement, p: Pattern, v: Var, prop: string, value: Expr, c: nat, t: Triple)
    requires MatchAccepted(s) && s.pattern == Some(p) && BindsNodes(s, p) && ClearNames(p) && Local(ev)
    requires WriteAccepted(MatchOf(s), SetProperty(v, prop, value))
    ensures
      var m := MatchOf(s);
      InAfter(store, ev, SetPropertyOp(m, v, prop, value, c), t)
      <==> if t.p == PropIri(prop) && Hit(store, ev, m.base, v, t.s)
           then !t.s.Value? && Assigned(store, ev, m.base, v, LoweredExpr(m.scope, value), t.s, t.o)
           else t in store
  {
    hide MatchOf, MatchAccepted, ClearNames, BindsNodes, FreshName, MatchVars, IsMatch, BaseScopeOf, PropIri, LoweredExpr, ExprAccepted, SetPropertyOp, SetOver,
         Settable, Local, Deleted, Inserted, Reads, WhereReads, ExprVars;
    var m, old_, new_ := MatchOf(s), FreshName("set_old", c), FreshName("set_val", c + 1);
    StatementSet(s, p, v, prop, value, c);
    OldIsNotUsed(s, p, value, c);
    var e := LoweredExpr(m.scope, value);
    assert IsMatch(m.base) by { SettableIsMatch(m.base, v, old_, new_); }
    if t in store { SetDeletes(store, ev, m.base, v, prop, old_, new_, e, t); }
    SetInserts(store, ev, m.base, v, prop, old_, new_, e, t);
  }

  lemma SettableIsMatch(base: GraphPattern, v: Var, old_: Var, new_: Var)
    requires Settable(base, v, old_, new_)
    ensures IsMatch(base)
  {
  }

  /** A property read is one the WHERE reads, or its variable is bound by nothing. */
  ghost predicate ReadsSettled(s: Statement, p: Pattern, value: Expr) {
    forall k :: k in Reads(value) ==> k in WhereReads(s.where_) || PropVar(k) !in BaseScopeOf(s, p)
  }

  /** A match on which the WHERE is true, `x` being its node `v` and `y` the value. */
  ghost predicate ValueSelected(store: Store, ops: Operators, s: Statement, p: Pattern, value: Expr, a: Assignment, env: Binding, vals: Values,
                                v: Var, x: Node, y: Node) {
    NodeSelected(store, ops, s, p, a, env, vals, v, x) && Shaped(p, a) && CypherValue(ops, p, a, vals, value) == Some(y)
  }

  lemma SolutionKeys(store: Store, ev: Evaluator, s: Statement, p: Pattern, m: Binding)
    requires MatchAccepted(s) && s.pattern == Some(p)
    requires WhereAccepted(ScopeOf(p, 0), s.where_) && Solution(store, ev, Selection(p, 0, s.where_, WhereReads(s.where_)), m)
    ensures m.Keys == BaseScopeOf(s, p)
  {
    hide Selection, Solution, BaseHolds, ValueStored, FilterHolds, PatternTriples, PatternPaths, WhereReads, Accepted, ExprAccepted;
    SelectionHolds(store, ev, p, s.where_, WhereReads(s.where_), m);
  }

  lemma AssignedSelects(store: Store, ev: Evaluator, ops: Operators, s: Statement, p: Pattern, v: Var, value: Expr, x: Node, y: Node)
      returns (a: Assignment, env: Binding, vals: Values)
    requires MatchAccepted(s) && s.pattern == Some(p) && BindsNodes(s, p) && v in MatchOf(s).scope.nodes && Evaluates(ev, ops)
    requires ExprAccepted(MatchOf(s).scope, value) && ReadsSettled(s, p, value)
    requires Assigned(store, ev, MatchOf(s).base, v, LoweredExpr(MatchOf(s).scope, value), x, y)
    ensures ValueSelected(store, ops, s, p, value, a, env, vals, v, x, y)
  {
    hide MatchOf, NodeNames, Accepted, Selected, AllAgree, Solution, Selection, Slots, ReadsOf, WhereReads, ReadsAs, UserVars, ExprAccepted,
         LoweredExpr, CypherValue, Evaluates, Reads, MatchAccepted, BindsNodes, Anchored, ExprVars, Written, WrittenReads, PropVar, BaseScopeOf;
    var keys := WhereReads(s.where_);
    BaseIsSelection(s, p);
    WhereReadsOf(s, p);
    var m :| Solution(store, ev, Selection(p, 0, s.where_, keys), m) && v in m && m[v] == x && ev(LoweredExpr(ScopeOf(p, 0), value), m) == Some(y);
    SolutionIsSelected(store, ev, ops, p, s.where_, keys, m);
    a, env, vals := Read(p, 0, m), Restrict(m, UserVars(p, |p.hops|)), ValuesIn(keys, m);
    SolutionKeys(store, ev, s, p, m);
    ValueIsKept(ev, ops, p, m, a, vals, value);
  }

  lemma SelectedIsAssigned(store: Store, ev: Evaluator, ops: Operators, s: Statement, p: Pattern, v: Var, value: Expr, x: Node, y: Node,
                           a: Assignment, env: Binding, vals: Values)
    requires MatchAccepted(s) && s.pattern == Some(p) && BindsNodes(s, p) && v in MatchOf(s).scope.nodes && Evaluates(ev, ops)
    requires ExprAccepted(MatchOf(s).scope, value) && ReadsSettled(s, p, value)
    requires ValueSelected(store, ops, s, p, value, a, env, vals, v, x, y)
    ensures Assigned(store, ev, MatchOf(s).base, v, LoweredExpr(MatchOf(s).scope, value), x, y)
  {
    hide MatchOf, NodeNames, Accepted, Selected, AllAgree, Solution, Selection, Slots, ReadsOf, WhereReads, ReadsAs, UserVars, ExprAccepted,
         LoweredExpr, CypherValue, Evaluates, Reads, MatchAccepted, BindsNodes, Anchored, ExprVars, Written, WrittenReads, Read, Chosen, PropVar, BaseScopeOf;
    var keys := WhereReads(s.where_);
    BaseIsSelection(s, p);
    WhereReadsOf(s, p);
    SelectedIsSolution(store, ev, ops, p, s.where_, keys, a, env, vals);
    var m := Chosen(p, keys, a, vals);
    assert Selected(store, ops, p, s.where_, keys, a, env, vals);
    assert vals.Keys == ToSet(keys) by { SelectedPicks(store, ops, p, s.where_, keys, a, env, vals); }
    SolutionKeys(store, ev, s, p, m);
    ValueIsKept(ev, ops, p, m, a, vals, value);
    assert v in m;
  }

  /** The values assigned are those of the Cypher expression on the matches. */
  lemma AssignedIsMatched(store: Store, ev: Evaluator, ops: Operators, s: Statement, p: Pattern, v: Var, value: Expr, x: Node, y: Node)
    requires MatchAccepted(s) && s.pattern == Some(p) && BindsNodes(s, p) && v in MatchOf(s).scope.nodes && Evaluates(ev, ops)
    requires ExprAccepted(MatchOf(s).scope, value) && ReadsSettled(s, p, value)
    ensures Assigned(store, ev, MatchOf(s).base, v, LoweredExpr(MatchOf(s).scope, value), x, y)
            <==> exists a, env, vals :: ValueSelected(store, ops, s, p, value, a, env, vals, v, x, y)
  {
    hide *;
    if Assigned(store, ev, MatchOf(s).base, v, LoweredExpr(MatchOf(s).scope, value), x, y) {
      var a, env, vals := AssignedSelects(store, ev, ops, s, p, v, value, x, y);
    }
    if a, env, vals :| ValueSelected(store, ops, s, p, value, a, env, vals, v, x, y) {
      SelectedIsAssigned(store, ev, ops, s, p, v, value, x, y, a, env, vals);
    }
  }

  lemma ValueIsKept(ev: Evaluator, ops: Operators, p: Pattern, m: Binding, a: Assignment, vals: Values, e: Expr)
    requires Accepted(p) && ExprAccepted(ScopeOf(p, 0), e) && Evaluates(ev, ops) && Shaped(p, a) && ReadsAs(p, m, a, vals)
    requires forall k :: k in Reads(e) ==> k in vals || PropVar(k) !in m
    ensures ev(LoweredExpr(ScopeOf(p, 0), e), m) == CypherValue(ops, p, a, vals, e)
  {
    hide Accepted, ExprAccepted, ReadsAs, LoweredExpr, CypherValue, SparqlValue, NeNegatesEq;
    ExprKeepsMeaning(ops, p, m, a, vals, e);
  }

  /** SET in terms of the matches: afterwards a matched node has exactly the values that
      the expression has on its matches, and everything else is as it was. */
  lemma SetAssignsOnMatches(store: Store, ev: Evaluator, ops: Operators, s: Statement, p: Pattern, v: Var, prop: string, value: Expr, c: nat, t: Triple)
    requires MatchAccepted(s) && s.pattern == Some(p) && BindsNodes(s, p) && ClearNames(p) && Evaluates(ev, ops)
    requires WriteAccepted(MatchOf(s), SetProperty(v, prop, value)) && ReadsSettled(s, p, value)
    ensures
      InAfter(store, ev, SetPropertyOp(MatchOf(s), v, prop, value, c), t)
      <==> if t.p == PropIri(prop) && exists a, env, vals :: NodeSelected(store, ops, s, p, a, env, vals, v, t.s)
           then !t.s.Value? && exists a, env, vals :: ValueSelected(store, ops, s, p, value, a, env, vals, v, t.s, t.o)
           else t in store
  {
    hide MatchOf, MatchAccepted, ClearNames, BindsNodes, PropIri, LoweredExpr, ExprAccepted, SetPropertyOp, Local, Reads, WhereReads, NodeSelected, ValueSelected,
         Evaluates, Hit, Assigned, InAfter;
    EvaluatesIsLocal(ev, ops);
    SetAssigns(store, ev, s, p, v, prop, value, c, t);
    HitIsMatched(store, ev, ops, s, p, v, t.s);
    AssignedIsMatched(store, ev, ops, s, p, v, value, t.s, t.o);
  }

  /** When the value reads a property into a variable that nothing binds, the old values
      are lost and no new one takes their place. */
  lemma SetLosesValue(store: Store, ev: Evaluator, s: Statement, p: Pattern, v: Var, prop: string, value: Expr, c: nat, k: Key, t: Triple)
    requires MatchAccepted(s) && s.pattern == Some(p) && BindsNodes(s, p) && ClearNames(p)
    requires WriteAccepted(MatchOf(s), SetProperty(v, prop, value)) && k in Reads(value)
    requires PropVar(k) !in BaseScopeOf(s, p) + {v, FreshName("set_old", c)}
    requires Strict(ev, LoweredExpr(MatchOf(s).scope, value), PropVar(k))
    ensures InAfter(store, ev, SetPropertyOp(MatchOf(s), v, prop, value, c), t)
            <==> t in store && !(t.p == PropIri(prop) && Hit(store, ev, MatchOf(s).base, v, t.s))
  {
    hide MatchOf, MatchAccepted, ClearNames, BindsNodes, FreshName, MatchVars, IsMatch, BaseScopeOf, PropIri, LoweredExpr, ExprAccepted, SetPropertyOp, SetOver,
         Settable, Strict, Deleted, Inserted, Reads, WhereReads, PropVar, Hit;
    var m, old_, new_ := MatchOf(s), FreshName("set_old", c), FreshName("set_val", c + 1);
    StatementSet(s, p, v, prop, value, c);
    var e := LoweredExpr(m.scope, value);
    assert IsMatch(m.base) by { SettableIsMatch(m.base, v, old_, new_); }
    if t in store { SetDeletes(store, ev, m.base, v, prop, old_, new_, e, t); }
    UnscopedInsertsNothing(store, ev, m.base, v, prop, old_, new_, e, PropVar(k), t);
  }

  // ---- A year older ----

  const PERSON: Pattern := Pattern(NodePattern(Some("n"), ["Person"], []), [])

  const AGE_PLUS_1: Expr := Binary(Add, Property(Variable("n"), "age"), Lit(Int(1)))

  const YEAR_OLDER: Statement := Statement(Some(PERSON), None, [SetProperty("n", "age", AGE_PLUS_1)])

  /** MATCH (n:Person) SET n.age = n.age + 1 removes the age of every person. */
  lemma YearOlderLosesAge(ev: Evaluator, t: Triple)
    requires Strict(ev, EBin(Add, EVar("n_age"), ELit(Int(1))), "n_age")
    ensures
      var person, age := Triple(Iri("ann"), RDF_TYPE, LabelIri("Person")), Triple(Iri("ann"), PropIri("age"), Value(Int(5)));
      && StatementAccepted(YEAR_OLDER) && |StatementOps(YEAR_OLDER)| == 1
      && (InAfter(iset{person, age}, ev, StatementOps(YEAR_OLDER)[0], t) <==> t == person)
  {
    var person, age := Triple(Iri("ann"), RDF_TYPE, LabelIri("Person")), Triple(Iri("ann"), PropIri("age"), Value(Int(5)));
    hide MatchOf, MatchAccepted, WritesAccepted, WriteAccepted, StatementOps, ClearNames, Hit, PropIri, LabelIri, PropVar, LoweredExpr,
         InAfter, Strict, SetPropertyOp;
    YearOlderAccepted();
    assert PropIri("age") != RDF_TYPE by { AgeIsNoType(); }
    PersonHit(iset{person, age}, ev, Iri("ann"));
    assert PropVar(Key("n", "age")) !in BaseScopeOf(YEAR_OLDER, PERSON) + {"n", FreshName("set_old", 0)} by {
      PlainIsClear(PERSON);
      ReadBoundIff(YEAR_OLDER, PERSON, "n", Key("n", "age"), 0);
    }
    SetLosesValue(iset{person, age}, ev, YEAR_OLDER, PERSON, "n", "age", AGE_PLUS_1, 0, Key("n", "age"), t);
  }

  lemma AgeIsNoType()
    ensures PropIri("age") != RDF_TYPE
  {
    assert RDF_TYPE.text[7] == 'w' && PropIri("age").text[7] == 'o';
  }

  lemma YearOlderAccepted()
    ensures StatementAccepted(YEAR_OLDER) && PlainNames(PERSON) && ClearNames(PERSON) && BindsNodes(YEAR_OLDER, PERSON)
    ensures WriteAccepted(MatchOf(YEAR_OLDER), SetProperty("n", "age", AGE_PLUS_1)) && ExprAccepted(MatchOf(YEAR_OLDER).scope, AGE_PLUS_1)
    ensures StatementOps(YEAR_OLDER) == [SetPropertyOp(MatchOf(YEAR_OLDER), "n", "age", AGE_PLUS_1, 0)]
    ensures MatchOf(YEAR_OLDER).base == PERSONS && Reads(AGE_PLUS_1) == [Key("n", "age")] && PropVar(Key("n", "age")) == "n_age"
    ensures LoweredExpr(MatchOf(YEAR_OLDER).scope, AGE_PLUS_1) == EBin(Add, EVar("n_age"), ELit(Int(1)))
  {
    hide LabelIri, PropIri, FreshName;
    var p, w := PERSON, SetProperty("n", "age", AGE_PLUS_1);
    assert IsVariableName("n");
    assert NodeVarOf(p, 0, 0) == "n" && NodeNames(p, 0) == {"n"} && RelBindings(p, 0, 0) == map[] && RelEnds(p, 0, 0) == map[];
    assert LabelTriples("n", ["Person"]) == [LabelTriple("n", "Person")];
    assert PatternTriples(p, 0, 0) == [LabelTriple("n", "Person")] && PatternPaths(p, 0, 0) == [] && ReadTriples(NewReads({}, [])) == [];
    assert UserVars(p, 0) == {"n"};
    assert "n" + "_" + "age" == "n_age";
    var m := MatchOf(YEAR_OLDER);
    assert m.counter == 0 && WriteAccepted(m, w);
    assert [w][..0] == [] && WritesOps(m, []) == [] && CounterAfterWrites(m, []) == 0;
  }

  // ---- A lone node without a condition ----

  function BareSet(v: Var, prop: string, value: Expr): Statement {
    Statement(Some(Pattern(NodePattern(Some(v), [], []), [])), None, [SetProperty(v, prop, value)])
  }

  ghost predicate HasValue(store: Store, x: Node, prop: string) { exists y :: Triple(x, PropIri(prop), y) in store }

  /** MATCH (n) SET n.prop = value binds no node by itself: only the nodes that have the
      property already get the value, and every other node is passed over. */
  lemma BareSetOnlyReplaces(store: Store, ev: Evaluator, v: Var, prop: string, value: Expr, t: Triple)
    requires IsVariableName(v) && Clear(v) && Local(ev) && ExprAccepted(Scope({v}, map[]), value)
    ensures StatementAccepted(BareSet(v, prop, value)) && |StatementOps(BareSet(v, prop, value))| == 1
    ensures
      InAfter(store, ev, StatementOps(BareSet(v, prop, value))[0], t)
      <==> if t.p == PropIri(prop)
           then !t.s.Value? && HasValue(store, t.s, prop) && ev(LoweredExpr(Scope({v}, map[]), value), map[v := t.s]) == Some(t.o)
           else t in store
  {
    hide FreshName, Local, PropIri, LoweredExpr, ExprAccepted, Deleted, Inserted, Reads, SetOver, StatementOps, StatementAccepted, HasValue, ExprVars;
    var old_, new_, e := FreshName("set_old", 0), FreshName("set_val", 1), LoweredExpr(Scope({v}, map[]), value);
    BareSetIs(v, prop, value);
    MadeUpNames("set_old", 0, v);
    MadeUpNames("set_val", 1, v);
    SetNamesDiffer(0);
    assert !Clear(old_) by { FreshIsNotClear("set_old", 0); }
    BareValueVars(v, value, old_);
    if t in store { BareDeletes(store, ev, v, prop, old_, new_, e, t); }
    BareInserts(store, ev, v, prop, old_, new_, e, t);
  }

  /** Its expression uses the node, and properties in variables that nothing binds. */
  lemma {:induction false} BareValueVars(v: Var, e: Expr, old_: Var)
    requires IsVariableName(v) && Clear(v) && !Clear(old_) && ExprAccepted(Scope({v}, map[]), e)
    ensures old_ !in ExprVars(LoweredExpr(Scope({v}, map[]), e))
    decreases e
  {
    match e
    case Variable(_) =>
    case Property(base, prop) => assert PropVar(Key(base.name, prop))[0] == v[0];
    case Lit(_) =>
    case Binary(_, a, b) => BareValueVars(v, a, old_); BareValueVars(v, b, old_);
    case Not(a) => BareValueVars(v, a, old_);
    case Neg(a) => BareValueVars(v, a, old_);
  }

  lemma BareSetIs(v: Var, prop: string, value: Expr)
    requires IsVariableName(v) && ExprAccepted(Scope({v}, map[]), value)
    ensures StatementAccepted(BareSet(v, prop, value))
    ensures StatementOps(BareSet(v, prop, value))
            == [SetOver(Bgp([]), v, prop, FreshName("set_old", 0), FreshName("set_val", 1), LoweredExpr(Scope({v}, map[]), value))]
  {
    hide FreshName, ExprAccepted, LoweredExpr, PropIri;
    var s := BareSet(v, prop, value);
    var p, w := s.pattern.value, s.writes[0];
    assert NodeNames(p, 0) == {v} && RelBindings(p, 0, 0) == map[] && RelEnds(p, 0, 0) == map[];
    assert PatternTriples(p, 0, 0) == [] && ReadTriples(NewReads({}, [])) == [] && PatternPaths(p, 0, 0) == [];
    var m := MatchOf(s);
    assert m.base == Bgp([]) && m.counter == 0 && m.scope == Scope({v}, map[]);
    assert [w][..0] == [] && WritesOps(m, []) == [] && CounterAfterWrites(m, []) == 0;
  }

  /** The rows are the stored values, or one row that binds nothing if there are none. */
  lemma StoredRows(store: Store, ev: Evaluator, v: Var, prop: string, old_: Var, l: Binding)
    requires v != old_
    ensures Solution(store, ev, WithOld(Bgp([]), v, prop, old_), l) && l != map[]
            <==> l.Keys == {v, old_} && Triple(l[v], PropIri(prop), l[old_]) in store
    ensures l.Keys == {v, old_} || l == map[] || !Solution(store, ev, WithOld(Bgp([]), v, prop, old_), l)
  {
    hide PropIri;
    var d := PropPattern(v, prop, old_);
    var none: Binding := map[];
    SingleVars(d);
    assert Solution(store, ev, Bgp([]), none);
    if l.Keys == {v, old_} && Triple(l[v], PropIri(prop), l[old_]) in store {
      assert Matches(store, d, l) && Solution(store, ev, Bgp([d]), l);
      assert Compatible(none, l) && l == none + l;
    }
    if x, y :| Solution(store, ev, Bgp([]), x) && Solution(store, ev, Bgp([d]), y) && Compatible(x, y) && l == x + y {
      assert l == y && Matches(store, d, l);
      assert InstTriple(d, l) == Triple(l[v], PropIri(prop), l[old_]);
    }
  }

  lemma BareDeletes(store: Store, ev: Evaluator, v: Var, prop: string, old_: Var, new_: Var, e: SExpr, t: Triple)
    requires v != old_ && v != new_ && old_ != new_ && t in store
    ensures Deleted(store, ev, SetOver(Bgp([]), v, prop, old_, new_, e), t) <==> t.p == PropIri(prop)
  {
    hide PropIri, Solution, WithOld;
    var op, d := SetOver(Bgp([]), v, prop, old_, new_, e), PropPattern(v, prop, old_);
    if t.p == PropIri(prop) {
      var l: Binding := map[v := t.s, old_ := t.o];
      assert Triple(l[v], PropIri(prop), l[old_]) == t;
      StoredRows(store, ev, v, prop, old_, l);
      var b := ExtendSolves(store, ev, WithOld(Bgp([]), v, prop, old_), new_, e, l);
      assert Produces([d], d, b, t);
    }
  }

  lemma BareInserts(store: Store, ev: Evaluator, v: Var, prop: string, old_: Var, new_: Var, e: SExpr, t: Triple)
    requires v != old_ && v != new_ && old_ != new_ && Local(ev) && old_ !in ExprVars(e)
    ensures Inserted(store, ev, SetOver(Bgp([]), v, prop, old_, new_, e), t)
            <==> t.p == PropIri(prop) && !t.s.Value? && HasValue(store, t.s, prop) && ev(e, map[v := t.s]) == Some(t.o)
  {
    hide PropIri, Solution, WithOld, ExprVars;
    var op, d, rows := SetOver(Bgp([]), v, prop, old_, new_, e), PropPattern(v, prop, new_), WithOld(Bgp([]), v, prop, old_);
    var here: Binding := map[v := t.s];
    if Inserted(store, ev, op, t) {
      var b, d' :| Solution(store, ev, op.pattern, b) && Produces(op.insert, d', b, t);
      var l := ExtendInner(store, ev, rows, new_, e, b);
      StoredRows(store, ev, v, prop, old_, l);
      assert v in l && l[v] == t.s;
      assert SameOn(ExprVars(e), l, here);
    }
    if t.p == PropIri(prop) && !t.s.Value? && HasValue(store, t.s, prop) && ev(e, here) == Some(t.o) {
      var y :| Triple(t.s, PropIri(prop), y) in store;
      var l: Binding := map[v := t.s, old_ := y];
      StoredRows(store, ev, v, prop, old_, l);
      assert SameOn(ExprVars(e), l, here);
      var b := ExtendSolves(store, ev, rows, new_, e, l);
      assert Produces([d], d, b, t);
      assert Legal(t) by { PropIriIsIri(prop); }
    }
  }
}
