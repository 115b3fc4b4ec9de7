/** What a write statement does to a store: its clauses one after the other, each on the
    matches in the store the ones before left. */
module StatementMeaning {
  import opened Options
  import opened CypherSyntax
  import opened Sparql
  import opened CypherMapping
  import opened MatchMeaning
  import opened ScopeSafety
  import opened ExprMeaning
  import opened WhereMeaning
  import opened WriteMeaning
  import opened SetMeaning

  // ---- What the clauses ask for ----

  /** Some match on which the WHERE is true has `x` for the node `v`. */
  ghost predicate IsMatched(store: Store, ops: Operators, s: Statement, p: Pattern, v: string, x: Node) {
    exists a, env, vals :: NodeSelected(store, ops, s, p, a, env, vals, v, x)
  }

  /** In some such match the expression has the value `y`. */
  ghost predicate IsValue(store: Store, ops: Operators, s: Statement, p: Pattern, v: string, value: Expr, x: Node, y: Node) {
    exists a, env, vals :: ValueSelected(store, ops, s, p, value, a, env, vals, v, x, y)
  }

  /** Some such match takes `t` for the relationship `r`. */
  ghost predicate IsMatchedEdge(store: Store, ops: Operators, s: Statement, p: Pattern, r: string, t: Triple) {
    exists i: nat, a, env, vals :: NamesHop(p, r, i) && EdgeSelected(store, ops, s, p, a, env, vals, i, t)
  }

  predicate IsRelName(p: Pattern, name: string) { exists i :: 0 <= i < |p.hops| && p.hops[i].rel.variable == Some(name) }

  predicate IsLabelOf(t: Triple, name: string) { t.p == RDF_TYPE && t.o == LabelIri(name) }

  /** SET v:name gives the label to every matched node that can carry one. */
  ghost function WithLabel(store: Store, ops: Operators, s: Statement, p: Pattern, v: string, name: string): Store {
    iset t: Triple | t in store || (IsLabelOf(t, name) && !t.s.Value? && IsMatched(store, ops, s, p, v, t.s))
  }

  /** REMOVE v:name takes it away. */
  ghost function WithoutLabel(store: Store, ops: Operators, s: Statement, p: Pattern, v: string, name: string): Store {
    iset t | t in store && !(IsLabelOf(t, name) && IsMatched(store, ops, s, p, v, t.s))
  }

  /** REMOVE v.prop takes all values away. */
  ghost function WithoutProperty(store: Store, ops: Operators, s: Statement, p: Pattern, v: string, prop: string): Store {
    iset t | t in store && !(t.p == PropIri(prop) && IsMatched(store, ops, s, p, v, t.s))
  }

  /** SET v.prop = value puts the values of the expression in their place. */
  ghost function WithProperty(store: Store, ops: Operators, s: Statement, p: Pattern, v: string, prop: string, value: Expr): Store {
    iset t: Triple | if t.p == PropIri(prop) && IsMatched(store, ops, s, p, v, t.s)
             then !t.s.Value? && IsValue(store, ops, s, p, v, value, t.s, t.o)
             else t in store
  }

  /** DELETE r takes the matched edges away, DELETE v first all triples out of the
      matched nodes and then, of the nodes still matched, all into them. */
  ghost function Without(store: Store, ops: Operators, s: Statement, p: Pattern, name: string): Store {
    if IsRelName(p, name) then iset t | t in store && !IsMatchedEdge(store, ops, s, p, name, t)
    else
      var first := WithoutSubjects(store, ops, s, p, name);
      iset t | t in first && !IsMatched(first, ops, s, p, name, t.o)
  }

  ghost function WithoutSubjects(store: Store, ops: Operators, s: Statement, p: Pattern, v: string): Store {
    iset t | t in store && !IsMatched(store, ops, s, p, v, t.s)
  }

  ghost function WithoutAll(store: Store, ops: Operators, s: Statement, p: Pattern, names: seq<string>): Store {
    if names == [] then store else Without(WithoutAll(store, ops, s, p, names[..|names| - 1]), ops, s, p, names[|names| - 1])
  }

  ghost function AfterClause(store: Store, ops: Operators, s: Statement, p: Pattern, w: WriteClause): Store {
    match w
    case SetProperty(v, prop, value) => WithProperty(store, ops, s, p, v, prop, value)
    case SetLabel(v, name) => WithLabel(store, ops, s, p, v, name)
    case Delete(names, _) => WithoutAll(store, ops, s, p, names)
    case RemoveProperty(v, prop) => WithoutProperty(store, ops, s, p, v, prop)
    case RemoveLabel(v, name) => WithoutLabel(store, ops, s, p, v, name)
  }

  /** Each clause on the store the clauses before it left. */
  ghost function AfterClauses(store: Store, ops: Operators, s: Statement, p: Pattern, ws: seq<WriteClause>): Store {
    if ws == [] then store else AfterClause(AfterClauses(store, ops, s, p, ws[..|ws| - 1]), ops, s, p, ws[|ws| - 1])
  }

  // ---- Labels ----

  lemma LabelProduced(v: Var, name: string, d: TriplePattern, m: Binding, t: Triple)
    ensures Produces([LabelTriple(v, name)], d, m, t) <==> d == LabelTriple(v, name) && v in m && t.s == m[v] && IsLabelOf(t, name)
  {
    hide LabelIri;
  }

  lemma LabelInserted(store: Store, ev: Evaluator, base: GraphPattern, v: Var, name: string, t: Triple)
    ensures InAfter(store, ev, DeleteInsert([], [LabelTriple(v, name)], base), t)
            <==> t in store || (IsLabelOf(t, name) && !t.s.Value? && Hit(store, ev, base, v, t.s))
  {
    hide Solution, LabelIri, LabelTriple;
    var op, d := DeleteInsert([], [LabelTriple(v, name)], base), LabelTriple(v, name);
    forall m, d ensures Produces([LabelTriple(v, name)], d, m, t) <==> d == LabelTriple(v, name) && v in m && t.s == m[v] && IsLabelOf(t, name) {
      LabelProduced(v, name, d, m, t);
    }
    if Hit(store, ev, base, v, t.s) && IsLabelOf(t, name) {
      var a :| Solution(store, ev, base, a) && v in a && a[v] == t.s;
      assert Produces(op.insert, d, a, t);
    }
  }

  lemma LabelDeleted(store: Store, ev: Evaluator, base: GraphPattern, v: Var, name: string, t: Triple)
    ensures InAfter(store, ev, DeleteInsert([LabelTriple(v, name)], [], base), t)
            <==> t in store && !(IsLabelOf(t, name) && Hit(store, ev, base, v, t.s))
  {
    hide Solution, LabelIri, LabelTriple;
    var op, d := DeleteInsert([LabelTriple(v, name)], [], base), LabelTriple(v, name);
    forall m, d ensures Produces([LabelTriple(v, name)], d, m, t) <==> d == LabelTriple(v, name) && v in m && t.s == m[v] && IsLabelOf(t, name) {
      LabelProduced(v, name, d, m, t);
    }
    if Hit(store, ev, base, v, t.s) && IsLabelOf(t, name) {
      var a :| Solution(store, ev, base, a) && v in a && a[v] == t.s;
      assert Produces(op.delete, d, a, t);
    }
  }

  // ---- Removing a property ----

  lemma PropertyDeleted(store: Store, ev: Evaluator, base: GraphPattern, v: Var, prop: string, old_: Var, t: Triple)
    requires IsMatch(base) && v in MatchVars(base) && old_ !in MatchVars(base)
    ensures InAfter(store, ev, DeleteInsert([PropPattern(v, prop, old_)], [], WithOld(base, v, prop, old_)), t)
            <==> t in store && !(t.p == PropIri(prop) && Hit(store, ev, base, v, t.s))
  {
    hide IsMatch, MatchVars, PropIri, Solution, WithOld;
    var op, d := DeleteInsert([PropPattern(v, prop, old_)], [], WithOld(base, v, prop, old_)), PropPattern(v, prop, old_);
    if t in store && Deleted(store, ev, op, t) {
      var l, d' :| Solution(store, ev, op.pattern, l) && Produces(op.delete, d', l, t);
      var a := WithOldSplits(store, ev, base, v, prop, old_, l);
      assert a[v] == t.s;
    }
    if t in store && t.p == PropIri(prop) && Hit(store, ev, base, v, t.s) {
      var l := OldIsFound(store, ev, base, v, prop, old_, t);
      assert Produces([d], d, l, t);
    }
  }

  // ---- The clauses of a statement ----

  /** What the theorems ask of a statement: its pattern binds its nodes, no name starts
      with an underscore, and expressions evaluate by the operators. */
  ghost predicate Proper(s: Statement, p: Pattern, ev: Evaluator, ops: Operators) {
    MatchAccepted(s) && s.pattern == Some(p) && BindsNodes(s, p) && ClearNames(p) && Evaluates(ev, ops)
    && MatchOf(s).ends.Keys == MatchOf(s).scope.rels.Keys
  }

  /** A SET reads only what the WHERE read, or what no variable of the base is called like. */
  ghost predicate Settled(s: Statement, p: Pattern, w: WriteClause) { w.SetProperty? ==> ReadsSettled(s, p, w.value) }

  lemma BaseBinds(s: Statement, p: Pattern, v: Var, prefix: string, c: nat)
    requires MatchAccepted(s) && s.pattern == Some(p) && BindsNodes(s, p) && ClearNames(p) && v in MatchOf(s).scope.nodes && OwnPrefix(prefix)
    ensures IsMatch(MatchOf(s).base) && v in MatchVars(MatchOf(s).base) && FreshName(prefix, c) !in MatchVars(MatchOf(s).base)
  {
    hide MatchOf, MatchAccepted, ClearNames, BindsNodes, FreshName, InScope, WellScoped, MatchVars, IsMatch, BaseScopeOf;
    MatchScope(s, p);
    LoneTarget(s, p, v);
    ScopeIsVars(MatchOf(s).base);
    WriteNameIsFresh(s, p, prefix, c);
  }

  lemma LabelClause(store: Store, ev: Evaluator, ops: Operators, s: Statement, p: Pattern, v: Var, name: string)
    requires Proper(s, p, ev, ops) && v in MatchOf(s).scope.nodes
    ensures After(store, ev, DeleteInsert([], [LabelTriple(v, name)], MatchOf(s).base)) == WithLabel(store, ops, s, p, v, name)
    ensures After(store, ev, DeleteInsert([LabelTriple(v, name)], [], MatchOf(s).base)) == WithoutLabel(store, ops, s, p, v, name)
  {
    hide MatchOf, MatchAccepted, BindsNodes, ClearNames, Evaluates, InAfter, Hit, LabelTriple, NodeSelected, IsLabelOf;
    forall t: Triple
      ensures InAfter(store, ev, DeleteInsert([], [LabelTriple(v, name)], MatchOf(s).base), t) <==> t in WithLabel(store, ops, s, p, v, name)
      ensures InAfter(store, ev, DeleteInsert([LabelTriple(v, name)], [], MatchOf(s).base), t) <==> t in WithoutLabel(store, ops, s, p, v, name)
    {
      HitIsMatched(store, ev, ops, s, p, v, t.s);
      LabelInserted(store, ev, MatchOf(s).base, v, name, t);
      LabelDeleted(store, ev, MatchOf(s).base, v, name, t);
    }
  }

  lemma RemoveClause(store: Store, ev: Evaluator, ops: Operators, s: Statement, p: Pattern, v: Var, prop: string, c: nat)
    requires Proper(s, p, ev, ops) && v in MatchOf(s).scope.nodes
    ensures After(store, ev, RemovePropertyOp(MatchOf(s), v, prop, c)) == WithoutProperty(store, ops, s, p, v, prop)
  {
    hide MatchOf, MatchAccepted, BindsNodes, ClearNames, Evaluates, InAfter, Hit, NodeSelected, PropIri, FreshName, IsMatch, MatchVars, WithOld, PropPattern;
    BaseBinds(s, p, v, "remove_old", c);
    forall t: Triple ensures InAfter(store, ev, RemovePropertyOp(MatchOf(s), v, prop, c), t) <==> t in WithoutProperty(store, ops, s, p, v, prop) {
      HitIsMatched(store, ev, ops, s, p, v, t.s);
      PropertyDeleted(store, ev, MatchOf(s).base, v, prop, FreshName("remove_old", c), t);
    }
  }

  lemma SetClause(store: Store, ev: Evaluator, ops: Operators, s: Statement, p: Pattern, v: Var, prop: string, value: Expr, c: nat)
    requires Proper(s, p, ev, ops) && WriteAccepted(MatchOf(s), SetProperty(v, prop, value)) && ReadsSettled(s, p, value)
    ensures After(store, ev, SetPropertyOp(MatchOf(s), v, prop, value, c)) == WithProperty(store, ops, s, p, v, prop, value)
  {
    hide MatchOf, MatchAccepted, BindsNodes, ClearNames, Evaluates, InAfter, NodeSelected, ValueSelected, PropIri, SetPropertyOp, ReadsSettled, ExprAccepted;
    forall t: Triple ensures InAfter(store, ev, SetPropertyOp(MatchOf(s), v, prop, value, c), t) <==> t in WithProperty(store, ops, s, p, v, prop, value) {
      SetAssignsOnMatches(store, ev, ops, s, p, v, prop, value, c, t);
    }
  }

  // ---- Deleting ----

  lemma RelNamesAre(s: Statement, p: Pattern, name: string)
    requires MatchAccepted(s) && s.pattern == Some(p)
    ensures name in MatchOf(s).ends <==> IsRelName(p, name)
  {
    hide Selection, WhereReads, NodeNames, CounterAfter, Accepted, ExprAccepted, RelEnds;
    if name in MatchOf(s).ends { var i := NameStandsForHop(p, 0, |p.hops|, name); }
    if i: nat :| i < |p.hops| && p.hops[i].rel.variable == Some(name) { NameHasEnds(p, |p.hops|, name, i); }
  }

  lemma {:induction false} NameHasEnds(p: Pattern, n: nat, r: string, i: nat)
    requires i < n <= |p.hops| && p.hops[i].rel.variable == Some(r)
    ensures r in RelEnds(p, 0, n)
    decreases n
  {
    hide NodeVarOf;
    if i < n - 1 { NameHasEnds(p, n - 1, r, i); }
  }

  lemma EdgeClause(store: Store, ev: Evaluator, ops: Operators, s: Statement, p: Pattern, r: string)
    requires Proper(s, p, ev, ops) && r in MatchOf(s).ends && r in MatchOf(s).scope.rels
    ensures AfterDelete(store, ev, DeleteEdgeOp(MatchOf(s), r)) == iset t | t in store && !IsMatchedEdge(store, ops, s, p, r, t)
  {
    hide MatchOf, MatchAccepted, BindsNodes, ClearNames, Evaluates, EdgeSelected, DeleteEdgeOp, Deleted;
    var i := LastHopNamed(s, p, r);
    forall t: Triple ensures Deleted(store, ev, DeleteEdgeOp(MatchOf(s), r), t) <==> IsMatchedEdge(store, ops, s, p, r, t) {
      DeleteEdgeExact(store, ev, ops, s, p, r, i, t);
      assert forall j: nat :: NamesHop(p, r, j) ==> j == i;
    }
  }

  lemma LastHopNamed(s: Statement, p: Pattern, r: string) returns (i: nat)
    requires MatchAccepted(s) && s.pattern == Some(p) && r in MatchOf(s).ends
    ensures NamesHop(p, r, i)
  {
    hide Selection, WhereReads, NodeNames, CounterAfter, Accepted, ExprAccepted, RelEnds;
    i := NameStandsForHop(p, 0, |p.hops|, r);
  }

  lemma NodeClause(store: Store, ev: Evaluator, ops: Operators, s: Statement, p: Pattern, v: Var, c: nat)
    requires Proper(s, p, ev, ops) && v in MatchOf(s).scope.nodes && v !in MatchOf(s).ends
    ensures AfterDeletes(store, ev, [SubjectSide(MatchOf(s).base, v, c), ObjectSide(MatchOf(s).base, v, c)]) == Without(store, ops, s, p, v)
  {
    hide MatchOf, MatchAccepted, BindsNodes, ClearNames, Evaluates, Hit, NodeSelected, SubjectSide, ObjectSide, NodeDelete, AfterDeletes, IsRelName;
    NodeIsDeletable(s, p, v, c);
    InSequence(store, ev, MatchOf(s).base, v, c);
    RelNamesAre(s, p, v);
    var first := AfterFirst(store, ev, MatchOf(s).base, v);
    forall x: Node ensures Hit(store, ev, MatchOf(s).base, v, x) <==> IsMatched(store, ops, s, p, v, x) { HitIsMatched(store, ev, ops, s, p, v, x); }
    assert first == WithoutSubjects(store, ops, s, p, v);
    forall x: Node ensures Hit(first, ev, MatchOf(s).base, v, x) <==> IsMatched(first, ops, s, p, v, x) { HitIsMatched(first, ev, ops, s, p, v, x); }
  }

  lemma NameClause(store: Store, ev: Evaluator, ops: Operators, s: Statement, p: Pattern, name: string, c: nat)
    requires Proper(s, p, ev, ops) && (name in MatchOf(s).ends || name in MatchOf(s).scope.nodes)
    ensures AfterOps(store, ev, OpsFor(MatchOf(s), name, c)) == Without(store, ops, s, p, name)
  {
    hide MatchOf, MatchAccepted, BindsNodes, ClearNames, Evaluates, AfterDelete, SubjectSide, ObjectSide, DeleteEdgeOp, IsRelName, AfterOps;
    var m := MatchOf(s);
    RelNamesAre(s, p, name);
    assert forall op :: op in OpsFor(m, name, c) ==> op.insert == [] by { OpsDelete(m, name, c); }
    DeletesOnly(store, ev, OpsFor(m, name, c));
    if name in m.ends {
      EdgeClause(store, ev, ops, s, p, name);
      assert [DeleteEdgeOp(m, name)][1..] == [];
    } else {
      NodeClause(store, ev, ops, s, p, name, c);
    }
  }

  lemma OpsDelete(m: MatchBase, name: string, c: nat)
    requires name in m.ends ==> name in m.scope.rels
    ensures forall op :: op in OpsFor(m, name, c) ==> op.insert == []
  {
  }

  lemma {:induction false} DeleteClause(store: Store, ev: Evaluator, ops: Operators, s: Statement, p: Pattern, names: seq<string>, c: nat)
    requires Proper(s, p, ev, ops) && DeleteAccepted(MatchOf(s), names)
    ensures AfterOps(store, ev, DeleteOps(MatchOf(s), names, c)) == WithoutAll(store, ops, s, p, names)
    decreases |names|
  {
    hide MatchOf, MatchAccepted, BindsNodes, ClearNames, Evaluates, SubjectSide, ObjectSide, DeleteEdgeOp, Without;
    if names != [] {
      var m, front, last := MatchOf(s), names[..|names| - 1], names[|names| - 1];
      var at := DeleteCounter(m, front, c);
      DeleteClause(store, ev, ops, s, p, front, c);
      AfterOpsOfConcat(store, ev, DeleteOps(m, front, c), OpsFor(m, last, at));
      NameClause(WithoutAll(store, ops, s, p, front), ev, ops, s, p, last, at);
    }
  }

  // ---- Whole statements ----

  lemma OneOpIsDone(store: Store, ev: Evaluator, op: Update)
    ensures AfterOps(store, ev, [op]) == After(store, ev, op)
  {
    assert [op][1..] == [];
  }

  lemma ClauseRuns(store: Store, ev: Evaluator, ops: Operators, s: Statement, p: Pattern, w: WriteClause, c: nat)
    requires Proper(s, p, ev, ops) && WriteAccepted(MatchOf(s), w) && Settled(s, p, w)
    ensures AfterOps(store, ev, WriteOps(MatchOf(s), w, c)) == AfterClause(store, ops, s, p, w)
  {
    hide MatchOf, MatchAccepted, BindsNodes, ClearNames, Evaluates, AfterOps, After, DeleteOps, SetPropertyOp, RemovePropertyOp, LabelTriple, ExprAccepted,
         ReadsSettled, WithLabel, WithoutLabel, WithProperty, WithoutProperty, WithoutAll;
    var m := MatchOf(s);
    match w {
      case SetProperty(v, prop, value) =>
        OneOpIsDone(store, ev, SetPropertyOp(m, v, prop, value, c));
        SetClause(store, ev, ops, s, p, v, prop, value, c);
      case SetLabel(v, name) =>
        OneOpIsDone(store, ev, DeleteInsert([], [LabelTriple(v, name)], m.base));
        LabelClause(store, ev, ops, s, p, v, name);
      case Delete(names, _) =>
        DeleteClause(store, ev, ops, s, p, names, c);
      case RemoveProperty(v, prop) =>
        OneOpIsDone(store, ev, RemovePropertyOp(m, v, prop, c));
        RemoveClause(store, ev, ops, s, p, v, prop, c);
      case RemoveLabel(v, name) =>
        OneOpIsDone(store, ev, DeleteInsert([LabelTriple(v, name)], [], m.base));
        LabelClause(store, ev, ops, s, p, v, name);
    }
  }

  lemma {:induction false} ClausesRun(store: Store, ev: Evaluator, ops: Operators, s: Statement, p: Pattern, ws: seq<WriteClause>)
    requires Proper(s, p, ev, ops) && WritesAccepted(MatchOf(s), ws) && forall w :: w in ws ==> Settled(s, p, w)
    ensures AfterOps(store, ev, WritesOps(MatchOf(s), ws)) == AfterClauses(store, ops, s, p, ws)
    decreases |ws|
  {
    hide Proper, Settled, MatchOf, WriteOps, WriteAccepted, CounterAfterWrites, AfterClause, After;
    if ws != [] {
      ProperEnds(s, p, ev, ops);
      var m, front, last := MatchOf(s), ws[..|ws| - 1], ws[|ws| - 1];
      assert WriteAccepted(m, last) && last in ws;
      ClausesRun(store, ev, ops, s, p, front);
      AfterOpsOfConcat(store, ev, WritesOps(m, front), WriteOps(m, last, CounterAfterWrites(m, front)));
      ClauseRuns(AfterClauses(store, ops, s, p, front), ev, ops, s, p, last, CounterAfterWrites(m, front));
    }
  }

  lemma ProperEnds(s: Statement, p: Pattern, ev: Evaluator, ops: Operators)
    requires Proper(s, p, ev, ops)
    ensures MatchAccepted(s) && MatchOf(s).ends.Keys == MatchOf(s).scope.rels.Keys
  {
  }

  /** MATCH .. WHERE .. and any list of SET, REMOVE and DELETE clauses: run one after the
      other, the lowered operations do what the clauses ask for. */
  lemma StatementRuns(store: Store, ev: Evaluator, ops: Operators, s: Statement, p: Pattern)
    requires StatementAccepted(s) && s.pattern == Some(p) && BindsNodes(s, p) && ClearNames(p) && Evaluates(ev, ops)
    requires forall w :: w in s.writes ==> Settled(s, p, w)
    ensures AfterOps(store, ev, StatementOps(s)) == AfterClauses(store, ops, s, p, s.writes)
  {
    hide MatchOf, MatchAccepted, BindsNodes, ClearNames, Evaluates, Settled, WritesAccepted, AfterClauses, AfterOps, WritesOps;
    MatchEnds(s);
    ClausesRun(store, ev, ops, s, p, s.writes);
  }

  /** The pattern binds its nodes and no name in it has an underscore. */
  ghost predicate Plainly(s: Statement, p: Pattern, ev: Evaluator, ops: Operators) {
    s.pattern == Some(p) && BindsNodes(s, p) && PlainNames(p) && Evaluates(ev, ops)
  }

  lemma PlainSettles(s: Statement, p: Pattern, w: WriteClause)
    requires MatchAccepted(s) && s.pattern == Some(p) && PlainNames(p) && WriteAccepted(MatchOf(s), w)
    ensures Settled(s, p, w)
  {
    hide MatchOf, MatchAccepted, PlainNames, ExprAccepted, BaseScopeOf, PropVar, Reads, WhereReads, FreshName;
    if w.SetProperty? {
      forall k | k in Reads(w.value) ensures k in WhereReads(s.where_) || PropVar(k) !in BaseScopeOf(s, p) {
        ReadsAreUsed(MatchOf(s).scope, w.value, k);
        ReadBoundIff(s, p, w.variable, k, 0);
      }
    }
  }

  /** Then every accepted statement does what its clauses ask for; a property that a SET
      reads and the WHERE does not has no value. */
  lemma PlainStatementRuns(store: Store, ev: Evaluator, ops: Operators, s: Statement, p: Pattern)
    requires StatementAccepted(s) && Plainly(s, p, ev, ops)
    ensures AfterOps(store, ev, StatementOps(s)) == AfterClauses(store, ops, s, p, s.writes)
  {
    hide MatchOf, MatchAccepted, BindsNodes, ClearNames, PlainNames, Evaluates, Settled, AfterClauses, AfterOps, StatementOps, WriteAccepted;
    PlainIsClear(p);
    forall w | w in s.writes ensures Settled(s, p, w) {
      var i :| 0 <= i < |s.writes| && s.writes[i] == w;
      assert WriteAccepted(MatchOf(s), s.writes[i]);
      PlainSettles(s, p, w);
    }
    StatementRuns(store, ev, ops, s, p);
  }

  // ---- A lone node without a condition ----

  function Bare(v: Var, w: WriteClause): Statement { Statement(Some(Pattern(NodePattern(Some(v), [], []), [])), None, [w]) }

  lemma BareBase(v: Var, w: WriteClause)
    requires IsVariableName(v)
    ensures MatchAccepted(Bare(v, w)) && MatchOf(Bare(v, w)).base == Bgp([]) && MatchOf(Bare(v, w)).scope.nodes == {v}
  {
    hide FreshName;
    var p := Bare(v, w).pattern.value;
    assert NodeNames(p, 0) == {v} && RelBindings(p, 0, 0) == map[] && RelEnds(p, 0, 0) == map[];
    assert PatternTriples(p, 0, 0) == [] && ReadTriples(NewReads({}, [])) == [] && PatternPaths(p, 0, 0) == [];
  }

  lemma OneClauseOps(m: MatchBase, w: WriteClause)
    requires WriteAccepted(m, w) && m.ends.Keys == m.scope.rels.Keys
    ensures WritesAccepted(m, [w]) && WritesOps(m, [w]) == WriteOps(m, w, m.counter)
  {
    hide WriteOps, WriteAccepted;
    assert [w][..0] == [] && WritesOps(m, []) == [] && CounterAfterWrites(m, []) == m.counter;
  }

  /** MATCH (n) SET n:Label and MATCH (n) REMOVE n:Label reach no node at all. */
  lemma BareLabelsChangeNothing(store: Store, ev: Evaluator, v: Var, name: string)
    requires IsVariableName(v)
    ensures StatementAccepted(Bare(v, SetLabel(v, name))) && AfterOps(store, ev, StatementOps(Bare(v, SetLabel(v, name)))) == store
    ensures StatementAccepted(Bare(v, RemoveLabel(v, name))) && AfterOps(store, ev, StatementOps(Bare(v, RemoveLabel(v, name)))) == store
  {
    hide LabelTriple, MatchOf, MatchAccepted, InAfter, AfterOps;
    var add, remove := Bare(v, SetLabel(v, name)), Bare(v, RemoveLabel(v, name));
    BareBase(v, SetLabel(v, name));
    BareBase(v, RemoveLabel(v, name));
    MatchEnds(add);
    MatchEnds(remove);
    OneClauseOps(MatchOf(add), add.writes[0]);
    OneClauseOps(MatchOf(remove), remove.writes[0]);
    var a, r := DeleteInsert([], [LabelTriple(v, name)], Bgp([])), DeleteInsert([LabelTriple(v, name)], [], Bgp([]));
    assert StatementOps(add) == [a] && StatementOps(remove) == [r];
    OneOpIsDone(store, ev, a);
    OneOpIsDone(store, ev, r);
    forall t: Triple ensures InAfter(store, ev, a, t) <==> t in store ensures InAfter(store, ev, r, t) <==> t in store {
      LabelInserted(store, ev, Bgp([]), v, name, t);
      LabelDeleted(store, ev, Bgp([]), v, name, t);
    }
  }
}
