/** What the lowered DELETE does to a store. */
module WriteMeaning {
  import opened Options
  import opened CypherSyntax
  import opened Sparql
  import opened CypherMapping
  import opened MatchMeaning
  import opened ScopeSafety
  import opened ExprMeaning
  import opened WhereMeaning

  /** The base pattern matches `x` as the node `v`. */
  ghost predicate Hit(store: Store, ev: Evaluator, base: GraphPattern, v: Var, x: Node) {
    exists a :: Solution(store, ev, base, a) && v in a && a[v] == x
  }

  // ---- Either operation by itself ----

  lemma JoinsWithAny(store: Store, ev: Evaluator, base: GraphPattern, t: TriplePattern, a: Binding, b: Binding)
    requires Solution(store, ev, base, a) && Compatible(a, b) && b.Keys == TripleVars(t) && InstTriple(t, b) in store
    ensures Solution(store, ev, Join(base, Bgp([t])), a + b)
  {
    SingleVars(t);
    assert Matches(store, t, b);
    assert Solution(store, ev, Bgp([t]), b);
  }

  lemma JoinSplits(store: Store, ev: Evaluator, base: GraphPattern, t: TriplePattern, m: Binding) returns (a: Binding)
    requires Solution(store, ev, Join(base, Bgp([t])), m)
    ensures Solution(store, ev, base, a) && (forall v :: v in a ==> v in m && m[v] == a[v]) && TripleVars(t) <= m.Keys
  {
    SingleVars(t);
    var b;
    a, b :| Solution(store, ev, base, a) && Solution(store, ev, Bgp([t]), b) && Compatible(a, b) && m == a + b;
  }

  /** The first operation removes the triples whose subject is a matched node. */
  lemma SubjectSideDeletes(store: Store, ev: Evaluator, base: GraphPattern, v: Var, c: nat, t: Triple)
    requires IsMatch(base) && v in MatchVars(base) && t in store
    requires FreshName("del_p", c) !in MatchVars(base) && FreshName("del_o", c + 1) !in MatchVars(base)
    ensures Deleted(store, ev, SubjectSide(base, v, c), t) <==> Hit(store, ev, base, v, t.s)
  {
    var p, o := FreshName("del_p", c), FreshName("del_o", c + 1);
    assert p[5] == 'p' && o[5] == 'o';
    DeletesBy(store, ev, base, v, TP(V(v), V(p), V(o)), t, t.s);
  }

  /** The second removes the triples whose object is one. */
  lemma ObjectSideDeletes(store: Store, ev: Evaluator, base: GraphPattern, v: Var, c: nat, t: Triple)
    requires IsMatch(base) && v in MatchVars(base) && t in store
    requires FreshName("del_s", c + 2) !in MatchVars(base) && FreshName("del_p2", c + 3) !in MatchVars(base)
    ensures Deleted(store, ev, ObjectSide(base, v, c), t) <==> Hit(store, ev, base, v, t.o)
  {
    var s, p := FreshName("del_s", c + 2), FreshName("del_p2", c + 3);
    assert s[5] == 's' && p[5] == 'p';
    DeletesBy(store, ev, base, v, TP(V(s), V(p), V(v)), t, t.o);
  }

  function DeleteWith(base: GraphPattern, d: TriplePattern): Update { DeleteInsert([d], [], Join(base, Bgp([d]))) }

  /** A template with the node at one end and variables elsewhere. */
  predicate EndsIn(d: TriplePattern, v: Var, t: Triple, end: Node) {
    && d.s.V? && d.p.V? && d.o.V? && d.s != d.p && d.p != d.o && d.s != d.o
    && ((d.s == V(v) && end == t.s) || (d.o == V(v) && end == t.o))
  }

  lemma DeletesBy(store: Store, ev: Evaluator, base: GraphPattern, v: Var, d: TriplePattern, t: Triple, end: Node)
    requires IsMatch(base) && v in MatchVars(base) && t in store
    requires EndsIn(d, v, t, end) && TripleVars(d) * MatchVars(base) == {v}
    ensures Deleted(store, ev, DeleteWith(base, d), t) <==> Hit(store, ev, base, v, end)
  {
    hide *;
    if Deleted(store, ev, DeleteWith(base, d), t) { DeletesOnlyHits(store, ev, base, v, d, t, end); }
    if Hit(store, ev, base, v, end) { HitIsDeleted(store, ev, base, v, d, t, end); }
  }

  lemma DeletesOnlyHits(store: Store, ev: Evaluator, base: GraphPattern, v: Var, d: TriplePattern, t: Triple, end: Node)
    requires IsMatch(base) && v in MatchVars(base) && EndsIn(d, v, t, end) && Deleted(store, ev, DeleteWith(base, d), t)
    ensures Hit(store, ev, base, v, end)
  {
    hide IsMatch, MatchVars, Solution;
    var op := DeleteWith(base, d);
    var m, d' :| Solution(store, ev, op.pattern, m) && Produces(op.delete, d', m, t);
    var a := JoinSplits(store, ev, base, d, m);
    SolutionBindsAll(store, ev, base, a);
    assert a[v] == end;
  }

  lemma HitIsDeleted(store: Store, ev: Evaluator, base: GraphPattern, v: Var, d: TriplePattern, t: Triple, end: Node)
    requires IsMatch(base) && v in MatchVars(base) && t in store && EndsIn(d, v, t, end)
    requires TripleVars(d) * MatchVars(base) == {v} && Hit(store, ev, base, v, end)
    ensures Deleted(store, ev, DeleteWith(base, d), t)
  {
    hide IsMatch, MatchVars, Solution;
    var a :| Solution(store, ev, base, a) && v in a && a[v] == end;
    SolutionBindsAll(store, ev, base, a);
    var b: Binding := map[d.s.name := t.s, d.p.name := t.p, d.o.name := t.o];
    assert InstTriple(d, b) == t;
    assert Compatible(a, b) by {
      forall x | x in a && x in b ensures a[x] == b[x] { assert x in TripleVars(d) * MatchVars(base); }
    }
    JoinsWithAny(store, ev, base, d, a, b);
    assert Produces([d], d, a + b, t);
  }

  // ---- Both, one after the other ----

  /** What deleting the matched nodes should leave. */
  ghost function Ideal(store: Store, ev: Evaluator, base: GraphPattern, v: Var): Store {
    iset t | t in store && !Hit(store, ev, base, v, t.s) && !Hit(store, ev, base, v, t.o)
  }

  ghost predicate NodeDelete(base: GraphPattern, v: Var, c: nat) {
    && IsMatch(base) && v in MatchVars(base)
    && FreshName("del_p", c) !in MatchVars(base) && FreshName("del_o", c + 1) !in MatchVars(base)
    && FreshName("del_s", c + 2) !in MatchVars(base) && FreshName("del_p2", c + 3) !in MatchVars(base)
  }

  /** Against one store, the two operations remove exactly the triples of the matched nodes. */
  lemma OneStoreExact(store: Store, ev: Evaluator, base: GraphPattern, v: Var, c: nat)
    requires NodeDelete(base, v, c)
    ensures AfterDelete(store, ev, SubjectSide(base, v, c)) * AfterDelete(store, ev, ObjectSide(base, v, c)) == Ideal(store, ev, base, v)
  {
    hide Deleted, Hit, SubjectSide, ObjectSide, FreshName;
    forall t | t in store
      ensures Deleted(store, ev, SubjectSide(base, v, c), t) <==> Hit(store, ev, base, v, t.s)
      ensures Deleted(store, ev, ObjectSide(base, v, c), t) <==> Hit(store, ev, base, v, t.o)
    {
      SubjectSideDeletes(store, ev, base, v, c, t);
      ObjectSideDeletes(store, ev, base, v, c, t);
    }
  }

  ghost function AfterFirst(store: Store, ev: Evaluator, base: GraphPattern, v: Var): Store {
    iset t | t in store && !Hit(store, ev, base, v, t.s)
  }

  /** Run in sequence, the second operation looks for its matches in what the first left. */
  lemma InSequence(store: Store, ev: Evaluator, base: GraphPattern, v: Var, c: nat)
    requires NodeDelete(base, v, c)
    ensures
      var first := AfterFirst(store, ev, base, v);
      AfterDeletes(store, ev, [SubjectSide(base, v, c), ObjectSide(base, v, c)]) == iset t | t in first && !Hit(first, ev, base, v, t.o)
  {
    hide Deleted, Hit, SubjectSide, ObjectSide, FreshName;
    var op1, op2 := SubjectSide(base, v, c), ObjectSide(base, v, c);
    var first := AfterFirst(store, ev, base, v);
    forall t | t in store ensures Deleted(store, ev, op1, t) <==> Hit(store, ev, base, v, t.s) { SubjectSideDeletes(store, ev, base, v, c, t); }
    assert AfterDelete(store, ev, op1) == first;
    forall t | t in first ensures Deleted(first, ev, op2, t) <==> Hit(first, ev, base, v, t.o) { ObjectSideDeletes(first, ev, base, v, c, t); }
    assert AfterDelete(first, ev, op2) == iset t | t in first && !Hit(first, ev, base, v, t.o);
    TwoDeletes(store, ev, op1, op2);
  }

  lemma TwoDeletes(store: Store, ev: Evaluator, op1: Update, op2: Update)
    ensures AfterDeletes(store, ev, [op1, op2]) == AfterDelete(AfterDelete(store, ev, op1), ev, op2)
  {
    hide AfterDelete;
    assert [op1, op2][1..] == [op2];
    assert [op2][1..] == [];
    assert AfterDeletes(store, ev, [op1, op2]) == AfterDeletes(AfterDelete(store, ev, op1), ev, [op2]);
  }

  /** An edge into a matched node from a node that is not. */
  ghost predicate Incoming(store: Store, ev: Evaluator, base: GraphPattern, v: Var, t: Triple) {
    t in store && !Hit(store, ev, base, v, t.s) && Hit(store, ev, base, v, t.o)
  }

  lemma HitMonotone(small: Store, big: Store, ev: Evaluator, base: GraphPattern, v: Var, x: Node)
    requires small <= big && IsMatch(base) && Hit(small, ev, base, v, x)
    ensures Hit(big, ev, base, v, x)
  {
    var a :| Solution(small, ev, base, a) && v in a && a[v] == x;
    MatchMonotone(small, big, ev, base, a);
  }

  /** In sequence the operations do the same exactly when every matched node with an
      incoming edge still matches once the first has run. */
  lemma SequenceExactIff(store: Store, ev: Evaluator, base: GraphPattern, v: Var, c: nat)
    requires NodeDelete(base, v, c)
    ensures
      AfterDeletes(store, ev, [SubjectSide(base, v, c), ObjectSide(base, v, c)]) == Ideal(store, ev, base, v)
      <==> forall t :: Incoming(store, ev, base, v, t) ==> Hit(AfterFirst(store, ev, base, v), ev, base, v, t.o)
  {
    hide Hit, SubjectSide, ObjectSide, FreshName;
    var first := AfterFirst(store, ev, base, v);
    var result := iset t | t in first && !Hit(first, ev, base, v, t.o);
    InSequence(store, ev, base, v, c);
    forall t | t in store ensures Hit(first, ev, base, v, t.o) ==> Hit(store, ev, base, v, t.o) {
      if Hit(first, ev, base, v, t.o) { HitMonotone(first, store, ev, base, v, t.o); }
    }
    assert forall t :: t in Ideal(store, ev, base, v) ==> t in result;
    if result == Ideal(store, ev, base, v) {
      forall t | Incoming(store, ev, base, v, t) ensures Hit(first, ev, base, v, t.o) {
        assert t in first && t !in Ideal(store, ev, base, v);
      }
    }
    if forall t :: Incoming(store, ev, base, v, t) ==> Hit(first, ev, base, v, t.o) {
      forall t | t in result ensures t in Ideal(store, ev, base, v) { assert !Incoming(store, ev, base, v, t); }
    }
  }

  /** The base asks for a triple that starts at `v`: a label, a property, an edge out. */
  predicate StartsAt(gp: GraphPattern, v: Var)
    requires IsMatch(gp)
  {
    match gp
    case Bgp(ts) => exists t :: t in ts && t.s == V(v)
    case Path(s, zeroOk, _, _) => s == v && !zeroOk
    case Join(l, r) => StartsAt(l, v) || StartsAt(r, v)
    case Filter(_, inner) => StartsAt(inner, v)
  }

  lemma {:induction false} StartedTriple(store: Store, ev: Evaluator, gp: GraphPattern, v: Var, m: Binding)
    requires IsMatch(gp) && StartsAt(gp, v) && Solution(store, ev, gp, m)
    ensures v in m && exists t :: t in store && t.s == m[v]
    decreases gp
  {
    match gp
    case Bgp(ts) =>
      var t :| t in ts && t.s == V(v);
      assert Matches(store, t, m);
      assert InstTriple(t, m).s == m[v];
    case Path(s, zeroOk, p, o) =>
      var n: nat :| n > 0 && Walk(store, p, n, m[s], m[o]);
      var z :| Triple(m[s], p, z) in store && Walk(store, p, n - 1, z, m[o]);
      assert Triple(m[s], p, z).s == m[v];
    case Join(l, r) =>
      var a, b :| Solution(store, ev, l, a) && Solution(store, ev, r, b) && Compatible(a, b) && m == a + b;
      if StartsAt(l, v) { StartedTriple(store, ev, l, v, a); } else { StartedTriple(store, ev, r, v, b); }
    case Filter(_, inner) => StartedTriple(store, ev, inner, v, m);
  }

  /** After the first operation such a base matches nothing. */
  lemma NothingLeftToMatch(store: Store, ev: Evaluator, base: GraphPattern, v: Var, x: Node)
    requires IsMatch(base) && StartsAt(base, v)
    ensures !Hit(AfterFirst(store, ev, base, v), ev, base, v, x)
  {
    var first := AfterFirst(store, ev, base, v);
    if Hit(first, ev, base, v, x) {
      var a :| Solution(first, ev, base, a) && v in a && a[v] == x;
      StartedTriple(first, ev, base, v, a);
      HitMonotone(first, store, ev, base, v, x);
      assert false;
    }
  }

  /** Deleting nodes found by a label, a property or an outgoing edge is complete
      exactly when no other node points to one of them. */
  lemma StartedDeleteExactIff(store: Store, ev: Evaluator, base: GraphPattern, v: Var, c: nat)
    requires NodeDelete(base, v, c) && StartsAt(base, v)
    ensures
      AfterDeletes(store, ev, [SubjectSide(base, v, c), ObjectSide(base, v, c)]) == Ideal(store, ev, base, v)
      <==> !exists t :: Incoming(store, ev, base, v, t)
  {
    hide Hit, SubjectSide, ObjectSide, FreshName, StartsAt, AfterFirst, Incoming, Ideal, AfterDeletes, NodeDelete;
    SequenceExactIff(store, ev, base, v, c);
    assert IsMatch(base) by { NodeDeleteIsMatch(base, v, c); }
    forall t: Triple ensures !Hit(AfterFirst(store, ev, base, v), ev, base, v, t.o) { NothingLeftToMatch(store, ev, base, v, t.o); }
  }

  lemma NodeDeleteIsMatch(base: GraphPattern, v: Var, c: nat)
    requires NodeDelete(base, v, c)
    ensures IsMatch(base)
  {
  }

  // ---- The DELETE of a statement ----

  /** The write clauses take their names from other prefixes than the pattern does. */
  predicate OwnPrefix(prefix: string) {
    prefix != "" && ((prefix[0] != 'n' && prefix[0] != 'r') || (EndsInLetter(prefix) && prefix != "node" && prefix != "rel"))
  }

  lemma MadeUpNames(prefix: string, n: nat, v: Var)
    requires OwnPrefix(prefix)
    requires Clear(v) || (exists i :: v == FreshName("node", i)) || exists i :: v == FreshName("rel", i)
    ensures v != FreshName(prefix, n)
  {
    assert FreshName(prefix, n)[0] == '_' && FreshName(prefix, n)[1] == prefix[0];
    if i :| v == FreshName("node", i) {
      assert v[1] == 'n';
      if EndsInLetter(prefix) { FreshNamesApart(prefix, n, "node", i); }
    }
    if i :| v == FreshName("rel", i) {
      assert v[1] == 'r';
      if EndsInLetter(prefix) { FreshNamesApart(prefix, n, "rel", i); }
    }
  }

  /** With clear names nothing in the base is called like a variable of a write clause. */
  lemma WriteNameIsFresh(s: Statement, p: Pattern, prefix: string, n: nat)
    requires MatchAccepted(s) && s.pattern == Some(p) && ClearNames(p) && OwnPrefix(prefix)
    ensures FreshName(prefix, n) !in BaseScopeOf(s, p)
  {
    hide FreshName, Accepted, LoweredExpr, Selection, RelEnds, RelBindings, CounterAfter, ReadVars, Slots, UserVars, NodeNames, ExprAccepted;
    var v, used := FreshName(prefix, n), WhereReads(s.where_);
    if v in Slots(p, 0, |p.hops|) {
      SlotsAre(p, |p.hops|, v);
      MadeUpNames(prefix, n, v);
    }
    if v in ReadVars(used) {
      ReadVarsAre(used, v);
      var k :| k in used && v in KeyNames(k);
      ReadsAreUsed(MatchOf(s).scope, s.where_.value, k);
      NodeNamesAreUserVars(p, |p.hops|);
      assert v[0] == k.node[0] != '_';
      MadeUpNames(prefix, n, v);
    }
  }

  /** A statement that deletes one node lowers to the two operations, over a base
      that binds the node and none of their own variables. */
  lemma DeleteStatement(s: Statement, p: Pattern, v: Var, detach: bool)
    requires StatementAccepted(s) && s.pattern == Some(p) && BindsNodes(s, p) && ClearNames(p)
    requires s.writes == [Delete([v], detach)] && v !in MatchOf(s).ends
    ensures NodeDelete(MatchOf(s).base, v, MatchOf(s).counter)
    ensures StatementOps(s) == [SubjectSide(MatchOf(s).base, v, MatchOf(s).counter), ObjectSide(MatchOf(s).base, v, MatchOf(s).counter)]
  {
    hide MatchOf, MatchAccepted, ClearNames, Anchored, FreshName, InScope, WellScoped, MatchVars, IsMatch, BaseScopeOf, SubjectSide, ObjectSide;
    var m := MatchOf(s);
    assert WriteAccepted(m, s.writes[0]);
    assert DeleteAccepted(m, [v]) && [v][0] in m.scope.nodes;
    MatchEnds(s);
    MatchScope(s, p);
    LoneTarget(s, p, v);
    ScopeIsVars(m.base);
    WriteNameIsFresh(s, p, "del_p", m.counter);
    WriteNameIsFresh(s, p, "del_o", m.counter + 1);
    WriteNameIsFresh(s, p, "del_s", m.counter + 2);
    WriteNameIsFresh(s, p, "del_p2", m.counter + 3);
    OneDelete(m, v, detach);
  }

  lemma OneDelete(m: MatchBase, v: Var, detach: bool)
    requires v in m.scope.nodes && v !in m.ends && m.ends.Keys == m.scope.rels.Keys
    ensures WritesAccepted(m, [Delete([v], detach)])
    ensures WritesOps(m, [Delete([v], detach)]) == [SubjectSide(m.base, v, m.counter), ObjectSide(m.base, v, m.counter)]
  {
    hide SubjectSide, ObjectSide;
    assert [v][..0] == [];
    assert [Delete([v], detach)][..0] == [];
    assert DeleteOps(m, [v], m.counter) == [SubjectSide(m.base, v, m.counter), ObjectSide(m.base, v, m.counter)];
  }

  lemma {:induction false} ScopeIsVars(gp: GraphPattern)
    requires IsMatch(gp)
    ensures InScope(gp) == MatchVars(gp)
    decreases gp
  {
    match gp
    case Bgp(_) =>
    case Path(_, _, _, _) =>
    case Join(l, r) => ScopeIsVars(l); ScopeIsVars(r);
    case Filter(_, inner) => ScopeIsVars(inner);
  }

  lemma LabelledStarts(v: Var, node: NodePattern)
    requires node.labels != [] || node.properties != []
    ensures exists t :: t in NodeTriples(v, node) && t.s == V(v)
  {
    var ts := NodeTriples(v, node);
    if node.labels != [] {
      var t := LabelTriple(v, node.labels[|node.labels| - 1]);
      assert t in LabelTriples(v, node.labels) && t in ts && t.s == V(v);
    } else {
      var t := PropTriple(V(v), node.properties[|node.properties| - 1]);
      assert t in PropTriples(V(v), node.properties) && t in ts && t.s == V(v);
    }
  }

  lemma {:induction false} NodeTriplesIn(p: Pattern, n: nat, i: nat, t: TriplePattern)
    requires i <= n <= |p.hops| && t in NodeTriples(NodeVarOf(p, 0, i), NodeAt(p, i))
    ensures t in PatternTriples(p, 0, n)
    decreases n
  {
    hide NodeTriples, RelTriples, NodeVarOf, RelVarOf;
    if i < n { NodeTriplesIn(p, n - 1, i, t); }
  }

  lemma {:induction false} BaseStarts(ts: seq<TriplePattern>, paths: seq<GraphPattern>, v: Var)
    requires AllPaths(paths) && IsMatch(Base(ts, paths)) && exists t :: t in ts && t.s == V(v)
    ensures StartsAt(Base(ts, paths), v)
    decreases |paths|
  {
    if paths != [] { BaseStarts(ts, paths[..|paths| - 1], v); }
  }

  predicate Conditioned(node: NodePattern, v: Var) { node.variable == Some(v) && (node.labels != [] || node.properties != []) }

  lemma ConditionedStarts(s: Statement, p: Pattern, v: Var, i: nat)
    requires MatchAccepted(s) && s.pattern == Some(p) && Anchored(p) && i <= |p.hops| && Conditioned(NodeAt(p, i), v)
    ensures IsMatch(MatchOf(s).base) && StartsAt(MatchOf(s).base, v)
  {
    hide NodeTriples, PatternTriples, PatternPaths, Accepted, LoweredExpr, ExprAccepted, ReadTriples, NewReads, RelEnds, RelBindings,
         NodeNames, CounterAfter, Slots, ReadVars;
    var n := |p.hops|;
    var ts := PatternTriples(p, 0, n) + ReadTriples(NewReads({}, WhereReads(s.where_)));
    PatternVars(p, 0, n);
    LabelledStarts(v, NodeAt(p, i));
    assert NodeVarOf(p, 0, i) == v;
    var t :| t in NodeTriples(v, NodeAt(p, i)) && t.s == V(v);
    NodeTriplesIn(p, n, i, t);
    assert t in ts;
    BaseScope(ts, PatternPaths(p, 0, n));
    BaseStarts(ts, PatternPaths(p, 0, n), v);
  }

  /** MATCH .. (v:Label) .. WHERE .. DELETE v removes what it should exactly when no
      node left alone points to a deleted one. */
  lemma DeleteExactIff(store: Store, ev: Evaluator, s: Statement, p: Pattern, v: Var, i: nat, detach: bool)
    requires StatementAccepted(s) && s.pattern == Some(p) && Anchored(p) && ClearNames(p)
    requires s.writes == [Delete([v], detach)] && v !in MatchOf(s).ends
    requires i <= |p.hops| && Conditioned(NodeAt(p, i), v)
    ensures
      AfterDeletes(store, ev, StatementOps(s)) == Ideal(store, ev, MatchOf(s).base, v)
      <==> !exists t :: Incoming(store, ev, MatchOf(s).base, v, t)
  {
    hide MatchOf, MatchAccepted, WritesAccepted, StatementOps, ClearNames, Anchored, Conditioned, AfterDeletes, Ideal, Incoming, NodeDelete, SubjectSide, ObjectSide;
    DeleteStatement(s, p, v, detach);
    ConditionedStarts(s, p, v, i);
    StartedDeleteExactIff(store, ev, MatchOf(s).base, v, MatchOf(s).counter);
  }

  // ---- Deleting a relationship ----

  /** The name `r` stands for hop `i` and no later one. */
  predicate NamesHop(p: Pattern, r: string, i: nat) {
    && i < |p.hops| && p.hops[i].rel.variable == Some(r)
    && forall j :: i < j < |p.hops| ==> p.hops[j].rel.variable != Some(r)
  }

  lemma {:induction false} NamedHop(p: Pattern, c: nat, n: nat, r: string, i: nat)
    requires NamesHop(p, r, i) && i < n <= |p.hops|
    ensures r in RelEnds(p, c, n) && RelEnds(p, c, n)[r] == Ends(p.hops[i].rel, NodeVarOf(p, c, i), NodeVarOf(p, c, i + 1))
    ensures r in RelBindings(p, c, n)
    ensures RelBindings(p, c, n)[r]
            == if p.hops[i].rel.relType.Some? then Const(RelIri(p.hops[i].rel.relType.value)) else ByVar(RelVarOf(p, c, i))
    decreases n
  {
    hide NodeVarOf, RelVarOf, RelIri;
    if i < n - 1 { NamedHop(p, c, n - 1, r, i); }
  }

  /** The triple an assignment matches a hop with. */
  function EdgeOf(p: Pattern, a: Assignment, i: nat): Triple
    requires i < |p.hops| && |a.nodes| == |p.hops| + 1 && |a.preds| == |p.hops|
  {
    match p.hops[i].rel.direction
    case Left => Triple(a.nodes[i + 1], a.preds[i], a.nodes[i])
    case Right => Triple(a.nodes[i], a.preds[i], a.nodes[i + 1])
    case Either => Triple(a.nodes[i], a.preds[i], a.nodes[i + 1])
  }

  /** Some match on which the WHERE is true takes `t` for hop `i`. */
  ghost predicate EdgeSelected(store: Store, ops: Operators, s: Statement, p: Pattern, a: Assignment, env: Binding, vals: Values, i: nat, t: Triple)
    requires i < |p.hops|
  {
    Selected(store, ops, p, s.where_, WhereReads(s.where_), a, env, vals) && AllAgree(p, a, vals) && t == EdgeOf(p, a, i)
  }

  lemma WhereReadsOf(s: Statement, p: Pattern)
    requires MatchAccepted(s) && s.pattern == Some(p)
    ensures Accepted(p) && WhereAccepted(ScopeOf(p, 0), s.where_) && ReadsOf(p, s.where_, WhereReads(s.where_))
  {
    hide Accepted, ExprAccepted, Reads, NodeNames, LoweredExpr;
    forall k | k in WhereReads(s.where_) ensures k.node in NodeNames(p, |p.hops|) { ReadsAreUsed(ScopeOf(p, 0), s.where_.value, k); }
  }

  lemma BaseIsSelection(s: Statement, p: Pattern)
    requires MatchAccepted(s) && s.pattern == Some(p)
    ensures WhereAccepted(ScopeOf(p, 0), s.where_) && MatchOf(s).scope == ScopeOf(p, 0)
    ensures MatchOf(s).base == Selection(p, 0, s.where_, WhereReads(s.where_))
    ensures BindsNodes(s, p) <==> Anchored(p) || WhereReads(s.where_) != []
    ensures forall v :: v in MatchOf(s).scope.nodes ==> v in UserVars(p, |p.hops|)
  {
    hide NodeNames, Accepted, CounterAfter, Selection, WhereReads, UserVars, ExprAccepted, RelEnds, RelBindings, Anchored;
    NodeNamesAreUserVars(p, |p.hops|);
  }

  /** The template of the deletion. */
  lemma EdgeTemplate(s: Statement, p: Pattern, r: string, i: nat)
    requires MatchAccepted(s) && s.pattern == Some(p) && NamesHop(p, r, i)
    ensures r in MatchOf(s).ends && r in MatchOf(s).scope.rels && WhereAccepted(ScopeOf(p, 0), s.where_)
    ensures
      var (x, y) := Ends(p.hops[i].rel, NodeVarOf(p, 0, i), NodeVarOf(p, 0, i + 1));
      DeleteEdgeOp(MatchOf(s), r)
      == DeleteInsert([TP(V(x), PredicateOf(p.hops[i].rel, RelVarOf(p, 0, i)), V(y))], [], Selection(p, 0, s.where_, WhereReads(s.where_)))
  {
    hide NodeVarOf, RelVarOf, RelEnds, RelBindings, NodeNames, Accepted, CounterAfter, RelIri, Selection, WhereReads, ExprAccepted;
    NamedHop(p, 0, |p.hops|, r, i);
  }

  lemma EdgeInstantiated(p: Pattern, i: nat, m: Binding, a: Assignment)
    requires Accepted(p) && i < |p.hops| && p.hops[i].rel.variable.Some? && |a.nodes| == |p.hops| + 1 && |a.preds| == |p.hops|
    requires NodeVarOf(p, 0, i) in m && m[NodeVarOf(p, 0, i)] == a.nodes[i]
    requires NodeVarOf(p, 0, i + 1) in m && m[NodeVarOf(p, 0, i + 1)] == a.nodes[i + 1]
    requires BindsPredicate(p.hops[i].rel) ==> RelVarOf(p, 0, i) in m && m[RelVarOf(p, 0, i)] == a.preds[i]
    requires p.hops[i].rel.relType.Some? ==> a.preds[i] == RelIri(p.hops[i].rel.relType.value)
    ensures
      var (x, y) := Ends(p.hops[i].rel, NodeVarOf(p, 0, i), NodeVarOf(p, 0, i + 1));
      var d := TP(V(x), PredicateOf(p.hops[i].rel, RelVarOf(p, 0, i)), V(y));
      TripleVars(d) <= m.Keys && InstTriple(d, m) == EdgeOf(p, a, i)
  {
    hide NodeVarOf, RelVarOf, RelIri, NodeAccepted;
    var rel := p.hops[i].rel;
    assert RelAccepted(rel);
    var (x, y) := Ends(rel, NodeVarOf(p, 0, i), NodeVarOf(p, 0, i + 1));
    InstOfEdge(m, rel, x, y, RelVarOf(p, 0, i));
  }

  lemma EdgeReads(p: Pattern, i: nat, m: Binding, a: Assignment, vals: Values)
    requires Accepted(p) && i < |p.hops| && p.hops[i].rel.variable.Some? && ReadsAs(p, m, a, vals)
    ensures
      var (x, y) := Ends(p.hops[i].rel, NodeVarOf(p, 0, i), NodeVarOf(p, 0, i + 1));
      var d := TP(V(x), PredicateOf(p.hops[i].rel, RelVarOf(p, 0, i)), V(y));
      TripleVars(d) <= m.Keys && InstTriple(d, m) == EdgeOf(p, a, i)
  {
    hide NodeVarOf, RelVarOf, RelIri, NodeAccepted, PropVar, Inst, TripleVars;
    assert TypeReadsAs(p, m, a, i) && RelAccepted(p.hops[i].rel);
    assert NodeVarOf(p, 0, i) in m && NodeVarOf(p, 0, i + 1) in m;
    EdgeInstantiated(p, i, m, a);
  }

  /** Deleting a relationship removes exactly the triples its hop was matched with, in
      the matches on which the WHERE is true, whatever the names are. */
  lemma DeleteEdgeExact(store: Store, ev: Evaluator, ops: Operators, s: Statement, p: Pattern, r: string, i: nat, t: Triple)
    requires MatchAccepted(s) && s.pattern == Some(p) && Evaluates(ev, ops) && NamesHop(p, r, i)
    requires r in MatchOf(s).ends && r in MatchOf(s).scope.rels
    ensures Deleted(store, ev, DeleteEdgeOp(MatchOf(s), r), t)
            <==> exists a, env, vals :: EdgeSelected(store, ops, s, p, a, env, vals, i, t)
  {
    hide MatchOf, NodeVarOf, RelVarOf, Selected, AllAgree, PredicateOf, Solution, Selection, Slots, Accepted, RelIri, EdgeOf, InstTriple, TripleVars,
         Evaluates, ReadsOf, WhereReads, MatchAccepted, ReadsAs, Ends;
    var rel, keys := p.hops[i].rel, WhereReads(s.where_);
    EdgeTemplate(s, p, r, i);
    WhereReadsOf(s, p);
    var (x, y) := Ends(rel, NodeVarOf(p, 0, i), NodeVarOf(p, 0, i + 1));
    var d := TP(V(x), PredicateOf(rel, RelVarOf(p, 0, i)), V(y));
    if Deleted(store, ev, DeleteEdgeOp(MatchOf(s), r), t) {
      var m, e :| Solution(store, ev, Selection(p, 0, s.where_, keys), m) && Produces([d], e, m, t);
      SolutionIsSelected(store, ev, ops, p, s.where_, keys, m);
      var a, vals := Read(p, 0, m), ValuesIn(keys, m);
      EdgeReads(p, i, m, a, vals);
      assert EdgeSelected(store, ops, s, p, a, Restrict(m, UserVars(p, |p.hops|)), vals, i, t);
    }
    if a, env, vals :| EdgeSelected(store, ops, s, p, a, env, vals, i, t) {
      SelectedIsSolution(store, ev, ops, p, s.where_, keys, a, env, vals);
      EdgeReads(p, i, Chosen(p, keys, a, vals), a, vals);
      assert Produces([d], d, Chosen(p, keys, a, vals), t);
    }
  }

  // ---- Deleting several variables ----

  /** The operation looks for matches of the base. */
  predicate Over(op: Update, base: GraphPattern) {
    op.pattern == base || (op.pattern.Join? && op.pattern.left == base)
  }

  /** Nothing matches the base. */
  ghost predicate Silent(store: Store, ev: Evaluator, base: GraphPattern) { forall m :: !Solution(store, ev, base, m) }

  lemma FromBase(store: Store, ev: Evaluator, base: GraphPattern, op: Update, m: Binding)
    requires Over(op, base) && Solution(store, ev, op.pattern, m)
    ensures exists a :: Solution(store, ev, base, a)
  {
    if op.pattern != base {
      var a, b :| Solution(store, ev, base, a) && Solution(store, ev, op.pattern.right, b) && Compatible(a, b) && m == a + b;
    }
  }

  lemma NoMatchNoDelete(store: Store, ev: Evaluator, base: GraphPattern, op: Update)
    requires Silent(store, ev, base) && Over(op, base)
    ensures AfterDelete(store, ev, op) == store
  {
    hide Solution, Over;
    forall t: Triple ensures !Deleted(store, ev, op, t) {
      if Deleted(store, ev, op, t) {
        var m, d :| Solution(store, ev, op.pattern, m) && Produces(op.delete, d, m, t);
        FromBase(store, ev, base, op, m);
        assert false;
      }
    }
  }

  lemma {:induction false} SilentAfter(store: Store, ev: Evaluator, base: GraphPattern, ops: seq<Update>)
    requires Silent(store, ev, base) && forall op :: op in ops ==> Over(op, base)
    ensures AfterDeletes(store, ev, ops) == store
    decreases |ops|
  {
    if ops != [] {
      assert ops[0] in ops;
      NoMatchNoDelete(store, ev, base, ops[0]);
      SilentAfter(store, ev, base, ops[1..]);
    }
  }

  ghost predicate DeletedByAny(store: Store, ev: Evaluator, ops: seq<Update>, t: Triple) {
    exists op :: op in ops && Deleted(store, ev, op, t)
  }

  lemma {:induction false} AfterBoth(store: Store, ev: Evaluator, first: seq<Update>, rest: seq<Update>)
    ensures AfterDeletes(store, ev, first + rest) == AfterDeletes(AfterDeletes(store, ev, first), ev, rest)
    decreases |first|
  {
    hide AfterDelete;
    if first == [] { assert first + rest == rest; }
    else {
      assert (first + rest)[0] == first[0] && (first + rest)[1..] == first[1..] + rest;
      AfterBoth(AfterDelete(store, ev, first[0]), ev, first[1..], rest);
    }
  }

  /** When the first operations destroy every match, the others do nothing. */
  lemma FirstDecide(store: Store, ev: Evaluator, base: GraphPattern, first: seq<Update>, rest: seq<Update>)
    requires (forall op :: op in rest ==> Over(op, base)) && Silent(AfterDeletes(store, ev, first), ev, base)
    ensures AfterDeletes(store, ev, first + rest) == AfterDeletes(store, ev, first)
  {
    hide Over, Silent, AfterDeletes;
    AfterBoth(store, ev, first, rest);
    SilentAfter(AfterDeletes(store, ev, first), ev, base, rest);
  }

  /** `d` is one of the triple patterns asked for. */
  predicate Needs(gp: GraphPattern, d: TriplePattern)
    requires IsMatch(gp)
  {
    match gp
    case Bgp(ts) => d in ts
    case Path(_, _, _, _) => false
    case Join(l, r) => Needs(l, d) || Needs(r, d)
    case Filter(_, inner) => Needs(inner, d)
  }

  lemma {:induction false} NeededTriple(store: Store, ev: Evaluator, gp: GraphPattern, d: TriplePattern, m: Binding)
    requires IsMatch(gp) && Needs(gp, d) && Solution(store, ev, gp, m)
    ensures TripleVars(d) <= m.Keys && InstTriple(d, m) in store
    decreases gp
  {
    match gp
    case Bgp(ts) => assert Matches(store, d, m);
    case Path(_, _, _, _) =>
    case Join(l, r) =>
      var a, b :| Solution(store, ev, l, a) && Solution(store, ev, r, b) && Compatible(a, b) && m == a + b;
      if Needs(l, d) { NeededTriple(store, ev, l, d, a); MatchesGrows(store, d, a, m); }
      else { NeededTriple(store, ev, r, d, b); MatchesGrows(store, d, b, m); }
    case Filter(_, inner) => NeededTriple(store, ev, inner, d, m);
  }

  /** Removing the triples one of its patterns was matched with leaves no match. */
  lemma EdgeSilences(store: Store, ev: Evaluator, base: GraphPattern, d: TriplePattern)
    requires IsMatch(base) && Needs(base, d)
    ensures Silent(AfterDelete(store, ev, DeleteInsert([d], [], base)), ev, base)
  {
    var op := DeleteInsert([d], [], base);
    var left := AfterDelete(store, ev, op);
    forall m ensures !Solution(left, ev, base, m) {
      if Solution(left, ev, base, m) {
        NeededTriple(left, ev, base, d, m);
        MatchMonotone(left, store, ev, base, m);
        assert Produces(op.delete, d, m, InstTriple(d, m));
        assert false;
      }
    }
  }

  /** What is left once both operations for a node have run. */
  ghost function AfterNode(store: Store, ev: Evaluator, base: GraphPattern, v: Var): Store {
    var first := AfterFirst(store, ev, base, v);
    iset t | t in first && !Hit(first, ev, base, v, t.o)
  }

  /** No matched node is the end of a triple any more. */
  lemma NodeIsGone(store: Store, ev: Evaluator, base: GraphPattern, v: Var, x: Node)
    requires IsMatch(base) && Hit(AfterNode(store, ev, base, v), ev, base, v, x)
    ensures !IsNode(AfterNode(store, ev, base, v), x)
  {
    hide Hit, IsMatch;
    var first, second := AfterFirst(store, ev, base, v), AfterNode(store, ev, base, v);
    HitMonotone(second, first, ev, base, v, x);
    HitMonotone(second, store, ev, base, v, x);
  }

  // ---- The operations for a list of variables ----

  lemma {:induction false} DeleteOpsOver(m: MatchBase, names: seq<string>, c: nat, op: Update)
    requires DeleteAccepted(m, names) && m.ends.Keys == m.scope.rels.Keys && op in DeleteOps(m, names, c)
    ensures Over(op, m.base)
    decreases |names|
  {
    hide FreshName;
    if op in DeleteOps(m, names[..|names| - 1], c) { DeleteOpsOver(m, names[..|names| - 1], c, op); }
  }

  /** The operations for one variable. */
  function OpsFor(m: MatchBase, name: string, c: nat): seq<Update>
    requires name in m.ends ==> name in m.scope.rels
  {
    if name in m.ends then [DeleteEdgeOp(m, name)] else [SubjectSide(m.base, name, c), ObjectSide(m.base, name, c)]
  }

  lemma {:induction false} DeleteOpsFirst(m: MatchBase, names: seq<string>, c: nat) returns (rest: seq<Update>)
    requires DeleteAccepted(m, names) && m.ends.Keys == m.scope.rels.Keys && names != []
    ensures DeleteOps(m, names, c) == OpsFor(m, names[0], c) + rest
    decreases |names|
  {
    hide SubjectSide, ObjectSide, DeleteEdgeOp;
    var n := |names| - 1;
    if n > 0 {
      var some := DeleteOpsFirst(m, names[..n], c);
      rest := some + OpsFor(m, names[n], DeleteCounter(m, names[..n], c));
    } else {
      assert names[..0] == [];
      rest := [];
    }
  }

  /** A triple the deletion of one variable is about: an end is a matched node, or it is
      a matched relationship. */
  ghost predicate Touched(store: Store, ev: Evaluator, m: MatchBase, name: string, t: Triple)
    requires name in m.ends ==> name in m.scope.rels
  {
    if name in m.ends then Deleted(store, ev, DeleteEdgeOp(m, name), t)
    else Hit(store, ev, m.base, name, t.s) || Hit(store, ev, m.base, name, t.o)
  }

  ghost predicate TouchedByAny(store: Store, ev: Evaluator, m: MatchBase, names: seq<string>, t: Triple)
    requires m.ends.Keys == m.scope.rels.Keys
  {
    exists name :: name in names && Touched(store, ev, m, name, t)
  }

  /** The base binds the node of every name, and no variable of a deletion. */
  ghost predicate Deletable(m: MatchBase, names: seq<string>) {
    forall name, c: nat :: name in names && name !in m.ends ==> NodeDelete(m.base, name, c)
  }

  /** Against one store, the operations remove exactly what the names are about. */
  lemma {:induction false} AnyDeletes(store: Store, ev: Evaluator, m: MatchBase, names: seq<string>, c: nat, t: Triple)
    requires DeleteAccepted(m, names) && m.ends.Keys == m.scope.rels.Keys && Deletable(m, names) && t in store
    ensures DeletedByAny(store, ev, DeleteOps(m, names, c), t) <==> TouchedByAny(store, ev, m, names, t)
    decreases |names|
  {
    hide SubjectSide, ObjectSide, DeleteEdgeOp, Deleted, Hit, NodeDelete;
    if names != [] {
      var front, last := names[..|names| - 1], names[|names| - 1];
      var at := DeleteCounter(m, front, c);
      AnyDeletes(store, ev, m, front, c, t);
      var ops, more := DeleteOps(m, front, c), if last in m.ends then [DeleteEdgeOp(m, last)] else [SubjectSide(m.base, last, at), ObjectSide(m.base, last, at)];
      if last !in m.ends {
        assert NodeDelete(m.base, last, at);
        BothSides(store, ev, m.base, last, at, t);
      }
      AnyOfBoth(store, ev, ops, more, t);
      assert DeletedByAny(store, ev, more, t) <==> Touched(store, ev, m, last, t) by {
        if last in m.ends { assert DeleteEdgeOp(m, last) in more; }
        else { assert SubjectSide(m.base, last, at) in more && ObjectSide(m.base, last, at) in more; }
      }
      assert forall name :: name in names <==> name in front || name == last by { assert names == front + [last]; }
    }
  }

  lemma AnyOfBoth(store: Store, ev: Evaluator, ops: seq<Update>, more: seq<Update>, t: Triple)
    ensures DeletedByAny(store, ev, ops + more, t) <==> DeletedByAny(store, ev, ops, t) || DeletedByAny(store, ev, more, t)
  {
    hide Deleted;
    assert forall op :: op in ops + more <==> op in ops || op in more;
  }

  lemma BothSides(store: Store, ev: Evaluator, base: GraphPattern, v: Var, c: nat, t: Triple)
    requires NodeDelete(base, v, c) && t in store
    ensures Deleted(store, ev, SubjectSide(base, v, c), t) <==> Hit(store, ev, base, v, t.s)
    ensures Deleted(store, ev, ObjectSide(base, v, c), t) <==> Hit(store, ev, base, v, t.o)
  {
    hide Deleted, Hit, SubjectSide, ObjectSide;
    SubjectSideDeletes(store, ev, base, v, c, t);
    ObjectSideDeletes(store, ev, base, v, c, t);
  }

  // ---- The statement ----

  lemma {:induction false} RelTriplesIn(p: Pattern, n: nat, i: nat, t: TriplePattern)
    requires i < n <= |p.hops| && t in RelTriples(p.hops[i].rel, NodeVarOf(p, 0, i), NodeVarOf(p, 0, i + 1), RelVarOf(p, 0, i))
    ensures t in PatternTriples(p, 0, n)
    decreases n
  {
    hide NodeTriples, RelTriples, NodeVarOf, RelVarOf;
    if i < n - 1 { RelTriplesIn(p, n - 1, i, t); }
  }

  lemma {:induction false} BaseNeeds(ts: seq<TriplePattern>, paths: seq<GraphPattern>, t: TriplePattern)
    requires AllPaths(paths) && IsMatch(Base(ts, paths)) && t in ts
    ensures Needs(Base(ts, paths), t)
    decreases |paths|
  {
    if paths != [] { BaseNeeds(ts, paths[..|paths| - 1], t); }
  }

  /** The base asks for every triple of the pattern. */
  lemma PatternIsNeeded(s: Statement, p: Pattern, t: TriplePattern)
    requires MatchAccepted(s) && s.pattern == Some(p) && t in PatternTriples(p, 0, |p.hops|)
    ensures IsMatch(MatchOf(s).base) && Needs(MatchOf(s).base, t)
  {
    hide PatternTriples, PatternPaths, Accepted, LoweredExpr, ExprAccepted, ReadTriples, NewReads, RelEnds, RelBindings, NodeNames, CounterAfter, Base;
    var ts := PatternTriples(p, 0, |p.hops|) + ReadTriples(NewReads({}, WhereReads(s.where_)));
    PatternVars(p, 0, |p.hops|);
    BaseScope(ts, PatternPaths(p, 0, |p.hops|));
    BaseNeeds(ts, PatternPaths(p, 0, |p.hops|), t);
  }

  lemma {:induction false} NameStandsForHop(p: Pattern, c: nat, n: nat, r: string) returns (i: nat)
    requires n <= |p.hops| && r in RelEnds(p, c, n)
    ensures i < n && p.hops[i].rel.variable == Some(r) && forall j :: i < j < n ==> p.hops[j].rel.variable != Some(r)
    decreases n
  {
    if n > 0 { if p.hops[n - 1].rel.variable == Some(r) { i := n - 1; } else { i := NameStandsForHop(p, c, n - 1, r); } }
  }

  lemma EdgeOpSilences(store: Store, ev: Evaluator, s: Statement, p: Pattern, r: string)
    requires MatchAccepted(s) && s.pattern == Some(p) && r in MatchOf(s).ends && r in MatchOf(s).scope.rels
    ensures Silent(AfterDelete(store, ev, DeleteEdgeOp(MatchOf(s), r)), ev, MatchOf(s).base)
  {
    hide NodeVarOf, RelVarOf, RelEnds, RelBindings, NodeNames, CounterAfter, RelIri, Selection, WhereReads, ExprAccepted, Silent, PatternTriples, NodeAccepted;
    var i := NameStandsForHop(p, 0, |p.hops|, r);
    EdgeTemplate(s, p, r, i);
    var d := DeleteEdgeOp(MatchOf(s), r).delete[0];
    assert RelAccepted(p.hops[i].rel);
    assert d in RelTriples(p.hops[i].rel, NodeVarOf(p, 0, i), NodeVarOf(p, 0, i + 1), RelVarOf(p, 0, i));
    RelTriplesIn(p, |p.hops|, i, d);
    PatternIsNeeded(s, p, d);
    EdgeSilences(store, ev, MatchOf(s).base, d);
  }

  /** A match binds every named node to a node of the store. */
  lemma MatchBindsNodes(store: Store, ev: Evaluator, s: Statement, p: Pattern, v: Var, m: Binding)
    requires MatchAccepted(s) && s.pattern == Some(p) && BindsNodes(s, p) && v in MatchOf(s).scope.nodes && Solution(store, ev, MatchOf(s).base, m)
    ensures v in m && IsNode(store, m[v])
  {
    hide Accepted, Homomorphism, Slots, UserVars, BaseHolds, PatternTriples, PatternPaths, FilterHolds, Solution, Selection, NodeNames, PatternScope,
         ReadVars, Anchored, RelEnds, RelBindings, CounterAfter, IsNode, ExprAccepted, LoweredExpr, WhereReads;
    var n, keys := |p.hops|, WhereReads(s.where_);
    WhereReadsOf(s, p);
    SelectionHolds(store, ev, p, s.where_, keys, m);
    SlotsAreBound(p, keys);
    if !Anchored(p) { LoneNodeIsNode(store, p, keys, m); }
    HoldingIsHomomorphism(store, p, 0, m);
    var i := NodeOfName(p, n, v);
    SlotsHave(p, 0, n, i);
    MatchedNodeIsNode(store, p, Read(p, 0, m), Restrict(m, UserVars(p, n)), i);
  }

  lemma {:induction false} NodeOfName(p: Pattern, n: nat, v: Var) returns (i: nat)
    requires n <= |p.hops| && v in NodeNames(p, n)
    ensures i <= n && NodeAt(p, i).variable == Some(v) && NodeVarOf(p, 0, i) == v
    decreases n
  {
    if NodeAt(p, n).variable == Some(v) { i := n; } else { i := NodeOfName(p, n - 1, v); }
  }

  lemma MatchedNodeIsNode(store: Store, p: Pattern, a: Assignment, env: Binding, i: nat)
    requires Homomorphism(store, p, a, env) && i <= |p.hops|
    ensures IsNode(store, a.nodes[i])
  {
    assert NodeMatches(store, p, a, env, i);
  }

  /** Once the operations for one variable have run, nothing matches any more. */
  lemma OpsSilence(store: Store, ev: Evaluator, s: Statement, p: Pattern, name: string, c: nat)
    requires MatchAccepted(s) && s.pattern == Some(p) && BindsNodes(s, p) && MatchOf(s).ends.Keys == MatchOf(s).scope.rels.Keys
    requires IsMatch(MatchOf(s).base) && (name in MatchOf(s).ends || name in MatchOf(s).scope.nodes)
    requires name !in MatchOf(s).ends ==> NodeDelete(MatchOf(s).base, name, c)
    ensures AfterDeletes(store, ev, OpsFor(MatchOf(s), name, c)) == iset t | t in store && !TakenFirst(store, ev, MatchOf(s), name, t)
    ensures Silent(AfterDeletes(store, ev, OpsFor(MatchOf(s), name, c)), ev, MatchOf(s).base)
  {
    hide MatchOf, MatchAccepted, BindsNodes, NodeDelete, IsMatch, Deleted, Hit, Solution, IsNode, SubjectSide, ObjectSide, DeleteEdgeOp, FreshName;
    var m := MatchOf(s);
    if name in m.ends {
      var op := DeleteEdgeOp(m, name);
      assert [op][1..] == [];
      assert AfterDeletes(store, ev, [op]) == AfterDelete(store, ev, op);
      EdgeOpSilences(store, ev, s, p, name);
    } else {
      var left := AfterNode(store, ev, m.base, name);
      InSequence(store, ev, m.base, name, c);
      assert AfterDeletes(store, ev, OpsFor(m, name, c)) == left;
      forall b: Binding ensures !Solution(left, ev, m.base, b) {
        if Solution(left, ev, m.base, b) {
          MatchBindsNodes(left, ev, s, p, name, b);
          assert Hit(left, ev, m.base, name, b[name]) by { SolutionHits(left, ev, m.base, name, b); }
          NodeIsGone(store, ev, m.base, name, b[name]);
          assert false;
        }
      }
    }
  }

  lemma SolutionHits(store: Store, ev: Evaluator, base: GraphPattern, v: Var, b: Binding)
    requires Solution(store, ev, base, b) && v in b
    ensures Hit(store, ev, base, v, b[v])
  {
  }

  lemma OneClause(m: MatchBase, names: seq<string>, detach: bool)
    requires DeleteAccepted(m, names) && m.ends.Keys == m.scope.rels.Keys
    ensures WritesAccepted(m, [Delete(names, detach)])
    ensures WritesOps(m, [Delete(names, detach)]) == DeleteOps(m, names, m.counter)
  {
    hide DeleteOps;
    assert [Delete(names, detach)][..0] == [];
  }

  lemma NodeIsDeletable(s: Statement, p: Pattern, v: Var, c: nat)
    requires MatchAccepted(s) && s.pattern == Some(p) && ClearNames(p) && BindsNodes(s, p) && v in MatchOf(s).scope.nodes
    ensures NodeDelete(MatchOf(s).base, v, c)
  {
    hide MatchOf, MatchAccepted, ClearNames, BindsNodes, FreshName, InScope, WellScoped, MatchVars, IsMatch, BaseScopeOf, BaseScoped;
    MatchScope(s, p);
    LoneTarget(s, p, v);
    ScopeIsVars(MatchOf(s).base);
    WriteNameIsFresh(s, p, "del_p", c);
    WriteNameIsFresh(s, p, "del_o", c + 1);
    WriteNameIsFresh(s, p, "del_s", c + 2);
    WriteNameIsFresh(s, p, "del_p2", c + 3);
  }

  /** What deleting the named variables should leave. */
  ghost function IdealFor(store: Store, ev: Evaluator, m: MatchBase, names: seq<string>): Store
    requires m.ends.Keys == m.scope.rels.Keys
  {
    iset t | t in store && !TouchedByAny(store, ev, m, names, t)
  }

  /** The operations of a DELETE, over a base that binds its nodes. */
  lemma StatementDeletes(s: Statement, p: Pattern, names: seq<string>, detach: bool)
    requires StatementAccepted(s) && s.pattern == Some(p) && ClearNames(p) && BindsNodes(s, p) && s.writes == [Delete(names, detach)]
    ensures DeleteAccepted(MatchOf(s), names) && MatchOf(s).ends.Keys == MatchOf(s).scope.rels.Keys && IsMatch(MatchOf(s).base)
    ensures StatementOps(s) == DeleteOps(MatchOf(s), names, MatchOf(s).counter)
    ensures Deletable(MatchOf(s), names)
  {
    hide MatchOf, MatchAccepted, ClearNames, BindsNodes, FreshName, NodeDelete, IsMatch, InScope, BaseScopeOf;
    var m := MatchOf(s);
    MatchEnds(s);
    MatchScope(s, p);
    assert WriteAccepted(m, s.writes[0]);
    OneClause(m, names, detach);
    forall name, c: nat | name in names && name !in m.ends ensures NodeDelete(m.base, name, c) {
      var i :| 0 <= i < |names| && names[i] == name;
      NodeIsDeletable(s, p, name, c);
    }
  }

  /** What the operations for the first variable remove, the second of a node looking at
      what the first one left. */
  ghost predicate TakenFirst(store: Store, ev: Evaluator, m: MatchBase, name: string, t: Triple)
    requires name in m.ends ==> name in m.scope.rels
  {
    if name in m.ends then Deleted(store, ev, DeleteEdgeOp(m, name), t)
    else Hit(store, ev, m.base, name, t.s) || Hit(AfterFirst(store, ev, m.base, name), ev, m.base, name, t.o)
  }

  lemma TakenIsTouched(store: Store, ev: Evaluator, m: MatchBase, name: string, t: Triple)
    requires (name in m.ends ==> name in m.scope.rels) && IsMatch(m.base) && TakenFirst(store, ev, m, name, t)
    ensures Touched(store, ev, m, name, t)
  {
    hide Hit, IsMatch, Deleted;
    var first := AfterFirst(store, ev, m.base, name);
    if name !in m.ends && Hit(first, ev, m.base, name, t.o) { HitMonotone(first, store, ev, m.base, name, t.o); }
  }

  /** MATCH .. WHERE .. DELETE x, y, ..: once the operations for the first variable have
      run nothing matches any more, so what they leave is left. Nothing is removed that
      has no part in a deleted node or relationship, and all of that is removed exactly
      when the operations for the first variable take it. */
  lemma DeleteListExactIff(store: Store, ev: Evaluator, s: Statement, p: Pattern, names: seq<string>, detach: bool)
    requires StatementAccepted(s) && s.pattern == Some(p) && ClearNames(p) && BindsNodes(s, p)
    requires s.writes == [Delete(names, detach)] && names != []
    requires MatchOf(s).ends.Keys == MatchOf(s).scope.rels.Keys
    ensures AfterDeletes(store, ev, StatementOps(s)) == iset t | t in store && !TakenFirst(store, ev, MatchOf(s), names[0], t)
    ensures IdealFor(store, ev, MatchOf(s), names) <= AfterDeletes(store, ev, StatementOps(s))
    ensures
      AfterDeletes(store, ev, StatementOps(s)) == IdealFor(store, ev, MatchOf(s), names)
      <==> forall t :: t in store && TouchedByAny(store, ev, MatchOf(s), names, t) ==> TakenFirst(store, ev, MatchOf(s), names[0], t)
  {
    hide MatchOf, MatchAccepted, ClearNames, BindsNodes, IsMatch, Silent, AfterDeletes, NodeDelete, Over, StatementOps, DeleteOps, OpsFor, TakenFirst, Touched,
         FreshName;
    var m, c := MatchOf(s), MatchOf(s).counter;
    StatementDeletes(s, p, names, detach);
    assert names[0] in names && (names[0] !in m.ends ==> NodeDelete(m.base, names[0], c));
    OpsSilence(store, ev, s, p, names[0], c);
    var rest := DeleteOpsFirst(m, names, c);
    forall op | op in rest ensures Over(op, m.base) { DeleteOpsOver(m, names, c, op); }
    FirstDecide(store, ev, m.base, OpsFor(m, names[0], c), rest);
    forall t | TakenFirst(store, ev, m, names[0], t) ensures TouchedByAny(store, ev, m, names, t) { TakenIsTouched(store, ev, m, names[0], t); }
    var left, ideal := AfterDeletes(store, ev, StatementOps(s)), IdealFor(store, ev, m, names);
    if left == ideal {
      forall t | t in store && TouchedByAny(store, ev, m, names, t) ensures TakenFirst(store, ev, m, names[0], t) { assert t !in ideal; }
    }
  }

  /** The nodes matched are those of the matches on which the WHERE is true. */
  lemma HitIsMatched(store: Store, ev: Evaluator, ops: Operators, s: Statement, p: Pattern, v: Var, x: Node)
    requires MatchAccepted(s) && s.pattern == Some(p) && BindsNodes(s, p) && v in MatchOf(s).scope.nodes && Evaluates(ev, ops)
    ensures Hit(store, ev, MatchOf(s).base, v, x) <==> exists a, env, vals :: NodeSelected(store, ops, s, p, a, env, vals, v, x)
  {
    hide MatchOf, NodeNames, Accepted, Selected, AllAgree, Solution, Selection, Slots, Evaluates, ReadsOf, WhereReads, ReadsAs, UserVars, ExprAccepted,
         LoweredExpr, MatchAccepted, BindsNodes, Anchored;
    var keys := WhereReads(s.where_);
    BaseIsSelection(s, p);
    WhereReadsOf(s, p);
    if Hit(store, ev, MatchOf(s).base, v, x) {
      var m :| Solution(store, ev, Selection(p, 0, s.where_, keys), m) && v in m && m[v] == x;
      SolutionIsSelected(store, ev, ops, p, s.where_, keys, m);
      assert NodeSelected(store, ops, s, p, Read(p, 0, m), Restrict(m, UserVars(p, |p.hops|)), ValuesIn(keys, m), v, x);
    }
    if a, env, vals :| NodeSelected(store, ops, s, p, a, env, vals, v, x) {
      SelectedIsSolution(store, ev, ops, p, s.where_, keys, a, env, vals);
      assert v in Chosen(p, keys, a, vals);
    }
  }

  ghost predicate NodeSelected(store: Store, ops: Operators, s: Statement, p: Pattern, a: Assignment, env: Binding, vals: Values, v: Var, x: Node) {
    Selected(store, ops, p, s.where_, WhereReads(s.where_), a, env, vals) && AllAgree(p, a, vals) && v in env && env[v] == x
  }

  // ---- Where DELETE falls short ----

  const PERSONS: GraphPattern := Bgp([LabelTriple("n", "Person")])

  /** MATCH (n:Person) DELETE n leaves the edges from others to the person: once the
      label is gone the second operation matches nobody. */
  lemma DeleteLeavesIncomingEdge(ev: Evaluator)
    ensures
      var ann, bob := Iri("ann"), Iri("bob");
      var knows := Triple(bob, RelIri("KNOWS"), ann);
      var store := iset{Triple(ann, RDF_TYPE, LabelIri("Person")), knows};
      && Ideal(store, ev, PERSONS, "n") == iset{}
      && AfterDeletes(store, ev, [SubjectSide(PERSONS, "n", 0), ObjectSide(PERSONS, "n", 0)]) == iset{knows}
  {
    var ann, bob := Iri("ann"), Iri("bob");
    var knows, person := Triple(bob, RelIri("KNOWS"), ann), Triple(ann, RDF_TYPE, LabelIri("Person"));
    var store := iset{person, knows};
    hide Hit, LabelIri, RelIri, SubjectSide, ObjectSide, AfterDeletes, FreshName, NodeDelete, MatchVars;
    PersonsBase();
    assert RelIri("KNOWS") != RDF_TYPE by { KnowsIsNoType(); }
    PersonHit(store, ev, ann);
    PersonHit(store, ev, bob);
    InSequence(store, ev, PERSONS, "n", 0);
    var first := AfterFirst(store, ev, PERSONS, "n");
    assert first == iset{knows};
    PersonHit(first, ev, ann);
  }

  lemma KnowsIsNoType()
    ensures RelIri("KNOWS") != RDF_TYPE
  {
    assert RDF_TYPE.text[7] == 'w' && RelIri("KNOWS").text[7] == 'o';
  }

  lemma PersonsBase()
    ensures NodeDelete(PERSONS, "n", 0) && MatchVars(PERSONS) == {"n"}
  {
    hide LabelIri;
    SingleVars(LabelTriple("n", "Person"));
    assert FreshName("del_p", 0)[0] == '_' && FreshName("del_o", 1)[0] == '_' && FreshName("del_s", 2)[0] == '_' && FreshName("del_p2", 3)[0] == '_';
  }

  lemma PersonHit(store: Store, ev: Evaluator, x: Node)
    ensures Hit(store, ev, PERSONS, "n", x) <==> Triple(x, RDF_TYPE, LabelIri("Person")) in store
  {
    hide LabelIri;
    var t := LabelTriple("n", "Person");
    SingleVars(t);
    var a: Binding := map["n" := x];
    assert InstTriple(t, a) == Triple(x, RDF_TYPE, LabelIri("Person"));
    if Triple(x, RDF_TYPE, LabelIri("Person")) in store {
      assert Matches(store, t, a);
      assert Solution(store, ev, PERSONS, a);
    }
    if Hit(store, ev, PERSONS, "n", x) {
      var b :| Solution(store, ev, PERSONS, b) && "n" in b && b["n"] == x;
      assert Matches(store, t, b);
    }
  }

  const BOTH_ENDS: Pattern := Pattern(NodePattern(Some("a"), ["A"], []),
                                      [Hop(RelPattern(None, Some("K"), Right, None, []), NodePattern(Some("b"), ["B"], []))])

  const BOTH_ENDS_BASE: GraphPattern := Bgp([LabelTriple("a", "A"), LabelTriple("b", "B"), TP(V("a"), C(RelIri("K")), V("b"))])

  function DeleteBothEnds(detach: bool): Statement { Statement(Some(BOTH_ENDS), None, [Delete(["a", "b"], detach)]) }

  /** MATCH (a:A)-[:K]->(b:B) DELETE a, b: deleting `a` takes the edge away, so `b` is
      not found any more and stays, though no other node points to either. */
  lemma DeleteBothEndsLeavesOne(ev: Evaluator, detach: bool)
    ensures
      var ann, bob := Iri("ann"), Iri("bob");
      var isA, isB, edge := Triple(ann, RDF_TYPE, LabelIri("A")), Triple(bob, RDF_TYPE, LabelIri("B")), Triple(ann, RelIri("K"), bob);
      var s := DeleteBothEnds(detach);
      && StatementAccepted(s) && MatchOf(s).ends.Keys == MatchOf(s).scope.rels.Keys
      && IdealFor(iset{isA, edge, isB}, ev, MatchOf(s), ["a", "b"]) == iset{}
      && AfterDeletes(iset{isA, edge, isB}, ev, StatementOps(s)) == iset{isB}
  {
    var ann, bob := Iri("ann"), Iri("bob");
    var isA, isB, edge := Triple(ann, RDF_TYPE, LabelIri("A")), Triple(bob, RDF_TYPE, LabelIri("B")), Triple(ann, RelIri("K"), bob);
    var s, store := DeleteBothEnds(detach), iset{isA, edge, isB};
    hide Hit, LabelIri, RelIri, MatchOf, MatchAccepted, ClearNames, AfterDeletes;
    BothEndsAccepted(detach);
    DeleteListExactIff(store, ev, s, BOTH_ENDS, ["a", "b"], detach);
    EndsApart();
    forall x: Node ensures Hit(store, ev, BOTH_ENDS_BASE, "a", x) <==> x == ann ensures Hit(store, ev, BOTH_ENDS_BASE, "b", x) <==> x == bob {
      BothEndsHit(store, ev, ann, bob, x);
    }
    var m, names := MatchOf(s), ["a", "b"];
    assert names[0] == "a" && names[1] == "b";
    forall t | t in store ensures TouchedByAny(store, ev, m, names, t) {
      assert t.s == ann || t.s == bob;
      assert Touched(store, ev, m, "a", t) || Touched(store, ev, m, "b", t);
    }
    var first := AfterFirst(store, ev, m.base, "a");
    if Hit(first, ev, m.base, "a", isB.o) { HitMonotone(first, store, ev, m.base, "a", isB.o); }
    assert TakenFirst(store, ev, m, "a", isA) && TakenFirst(store, ev, m, "a", edge) && !TakenFirst(store, ev, m, "a", isB);
  }

  lemma EndsApart()
    ensures RelIri("K") != RDF_TYPE && LabelIri("A") != LabelIri("B") && LabelIri("B") != Iri("ann")
  {
    assert RDF_TYPE.text[7] == 'w' && RelIri("K").text[7] == 'o';
    assert LabelIri("A").text[|LABEL_NS|] == 'A' && LabelIri("B").text[|LABEL_NS|] == 'B';
  }

  lemma BothEndsVars()
    ensures AllVars(BOTH_ENDS_BASE.ts) == {"a", "b"}
  {
    hide LabelIri, RelIri;
    var la, lb, e := LabelTriple("a", "A"), LabelTriple("b", "B"), TP(V("a"), C(RelIri("K")), V("b"));
    assert [la, lb, e][..2] == [la, lb];
    assert [la, lb][..1] == [la];
    SingleVars(la);
  }

  lemma BothEndsSolution(store: Store, ev: Evaluator, a: Node, b: Node, m: Binding)
    requires store == iset{Triple(a, RDF_TYPE, LabelIri("A")), Triple(a, RelIri("K"), b), Triple(b, RDF_TYPE, LabelIri("B"))} && a != b
    requires RelIri("K") != RDF_TYPE && LabelIri("A") != LabelIri("B")
    ensures Solution(store, ev, BOTH_ENDS_BASE, m) <==> m == map["a" := a, "b" := b]
  {
    hide LabelIri, RelIri, AllVars;
    BothEndsVars();
    if m.Keys == {"a", "b"} {
      assert Matches(store, LabelTriple("a", "A"), m) <==> Triple(m["a"], RDF_TYPE, LabelIri("A")) in store;
      assert Matches(store, LabelTriple("b", "B"), m) <==> Triple(m["b"], RDF_TYPE, LabelIri("B")) in store;
      assert Matches(store, TP(V("a"), C(RelIri("K")), V("b")), m) <==> Triple(m["a"], RelIri("K"), m["b"]) in store;
    }
  }

  lemma BothEndsHit(store: Store, ev: Evaluator, a: Node, b: Node, x: Node)
    requires store == iset{Triple(a, RDF_TYPE, LabelIri("A")), Triple(a, RelIri("K"), b), Triple(b, RDF_TYPE, LabelIri("B"))} && a != b
    requires RelIri("K") != RDF_TYPE && LabelIri("A") != LabelIri("B")
    ensures Hit(store, ev, BOTH_ENDS_BASE, "a", x) <==> x == a
    ensures Hit(store, ev, BOTH_ENDS_BASE, "b", x) <==> x == b
  {
    hide LabelIri, RelIri, Solution;
    var m: Binding := map["a" := a, "b" := b];
    BothEndsSolution(store, ev, a, b, m);
    assert m["a"] == a && m["b"] == b;
    forall n: Binding | Solution(store, ev, BOTH_ENDS_BASE, n) ensures n == m { BothEndsSolution(store, ev, a, b, n); }
  }

  lemma BothEndsAccepted(detach: bool)
    ensures StatementAccepted(DeleteBothEnds(detach)) && ClearNames(BOTH_ENDS) && Anchored(BOTH_ENDS)
    ensures MatchOf(DeleteBothEnds(detach)).base == BOTH_ENDS_BASE
    ensures MatchOf(DeleteBothEnds(detach)).ends == map[] && MatchOf(DeleteBothEnds(detach)).scope.rels == map[]
  {
    hide LabelIri, RelIri, FreshName;
    var p := BOTH_ENDS;
    assert Conditioned(NodeAt(p, 0), "a");
    assert IsVariableName("a") && IsVariableName("b");
    assert NodeVarOf(p, 0, 0) == "a" && NodeVarOf(p, 0, 1) == "b";
    assert LabelTriples("a", ["A"]) == [LabelTriple("a", "A")] && LabelTriples("b", ["B"]) == [LabelTriple("b", "B")];
    assert PatternTriples(p, 0, 0) == [LabelTriple("a", "A")];
    assert PatternTriples(p, 0, 1) == [LabelTriple("a", "A"), LabelTriple("b", "B"), TP(V("a"), C(RelIri("K")), V("b"))];
    assert PatternPaths(p, 0, 0) == [] && PatternPaths(p, 0, 1) == [];
    assert ReadTriples(NewReads({}, [])) == [];
    assert NodeNames(p, 0) == {"a"} && NodeNames(p, 1) == {"a", "b"};
    assert RelBindings(p, 0, 0) == map[] && RelBindings(p, 0, 1) == map[];
    assert RelEnds(p, 0, 0) == map[] && RelEnds(p, 0, 1) == map[];
    assert UserVars(p, 0) == {"a"} && UserVars(p, 1) == {"a", "b"};
  }

  /** MATCH (n) DELETE n binds nothing, so its first operation empties the store. */
  lemma BareDeleteEmptiesStore(store: Store, ev: Evaluator, v: Var, c: nat)
    requires v != FreshName("del_p", c) && v != FreshName("del_o", c + 1)
    ensures AfterDelete(store, ev, SubjectSide(Bgp([]), v, c)) == iset{}
  {
    hide FreshName;
    var p, o := FreshName("del_p", c), FreshName("del_o", c + 1);
    assert p != o by { DelNamesDiffer(c); }
    var d := TP(V(v), V(p), V(o));
    forall t | t in store ensures Deleted(store, ev, SubjectSide(Bgp([]), v, c), t) {
      var b: Binding := map[v := t.s, p := t.p, o := t.o];
      assert InstTriple(d, b) == t;
      JoinsWithAny(store, ev, Bgp([]), d, map[], b);
      assert Produces([d], d, map[] + b, t);
    }
  }

  function BareDelete(v: Var, detach: bool): Statement {
    Statement(Some(Pattern(NodePattern(Some(v), [], []), [])), None, [Delete([v], detach)])
  }

  /** So the statement loses every triple there is, whatever the node is called. */
  lemma BareStatementEmptiesStore(store: Store, ev: Evaluator, v: Var, detach: bool)
    requires IsVariableName(v) && v != FreshName("del_p", 0) && v != FreshName("del_o", 1)
    ensures StatementAccepted(BareDelete(v, detach)) && AfterDeletes(store, ev, StatementOps(BareDelete(v, detach))) == iset{}
  {
    hide FreshName, SubjectSide, ObjectSide, Deleted, AfterDeletes;
    var s := BareDelete(v, detach);
    var m, p := MatchOf(s), s.pattern.value;
    assert NodeNames(p, 0) == {v} && RelBindings(p, 0, 0) == map[] && RelEnds(p, 0, 0) == map[];
    assert PatternTriples(p, 0, 0) == [] && ReadTriples(NewReads({}, [])) == [] && PatternPaths(p, 0, 0) == [];
    assert m.base == Bgp([]) && m.counter == 0;
    OneDelete(m, v, detach);
    TwoDeletes(store, ev, SubjectSide(m.base, v, 0), ObjectSide(m.base, v, 0));
    BareDeleteEmptiesStore(store, ev, v, 0);
  }

  lemma DelNamesDiffer(c: nat)
    ensures FreshName("del_p", c) != FreshName("del_o", c + 1)
  {
    assert FreshName("del_p", c)[5] == 'p' && FreshName("del_o", c + 1)[5] == 'o';
  }
}
