/** A lowered MATCH pattern means what the pattern means: its solutions, restricted
    to the names the user wrote, are the homomorphic matches of the pattern. */
module MatchMeaning {
  import opened Options
  import opened CypherSyntax
  import opened Sparql
  import opened CypherMapping
  import opened Numerals

  // ---- What a pattern means on a property graph kept as triples ----

  ghost predicate HasLabel(store: Store, x: Node, name: string) { Triple(x, RDF_TYPE, LabelIri(name)) in store }

  /** Nothing has the value NULL. */
  ghost predicate HasProperty(store: Store, x: Node, kv: (string, Literal)) { !kv.1.Null? && Triple(x, PropIri(kv.0), Value(kv.1)) in store }

  /** A node of the graph that carries the labels and the properties. */
  ghost predicate NodeHolds(store: Store, node: NodePattern, x: Node) {
    && IsNode(store, x)
    && (forall name :: name in node.labels ==> HasLabel(store, x, name))
    && (forall kv :: kv in node.properties ==> HasProperty(store, x, kv))
  }

  /** `n` edges of one type, each with the properties. */
  ghost predicate EdgesHold(store: Store, pred: Node, props: seq<(string, Literal)>, n: nat, x: Node, y: Node) {
    if n == 0 then x == y
    else
      exists z :: Triple(x, pred, z) in store && EdgesHold(store, pred, props, n - 1, z, y)
                  && forall kv :: kv in props ==> HasProperty(store, Quoted(x, pred, z), kv)
  }

  /** As many edges as the bounds allow; from one when no least is given. */
  ghost predicate BoundedWalk(store: Store, bounds: VarLength, pred: Node, props: seq<(string, Literal)>, x: Node, y: Node) {
    exists n: nat :: WithinBounds(bounds, n) && EdgesHold(store, pred, props, n, x, y) && (n == 0 ==> IsNode(store, x))
  }

  predicate WithinBounds(bounds: VarLength, n: nat) {
    && (match bounds.min case Some(least) => least <= n case None => 1 <= n)
    && (bounds.max.Some? ==> n <= bounds.max.value)
  }

  /** An edge from `x` to `y`; `pred` is its type. Properties annotate the edge. */
  ghost predicate EdgeHolds(store: Store, rel: RelPattern, x: Node, pred: Node, y: Node) {
    match rel.varLength
    case Some(bounds) => rel.relType.Some? && BoundedWalk(store, bounds, RelIri(rel.relType.value), rel.properties, x, y)
    case None =>
      && (rel.relType.Some? ==> pred == RelIri(rel.relType.value))
      && Triple(x, pred, y) in store
      && forall kv :: kv in rel.properties ==> HasProperty(store, Quoted(x, pred, y), kv)
  }

  /** An arrow to the left is an edge from the right-hand node; no arrow reads as one
      to the right. */
  ghost predicate HopHolds(store: Store, rel: RelPattern, from: Node, pred: Node, to: Node) {
    match rel.direction
    case Left => EdgeHolds(store, rel, to, pred, from)
    case Right => EdgeHolds(store, rel, from, pred, to)
    case Either => EdgeHolds(store, rel, from, pred, to)
  }

  /** Nodes and edge types for every part of the pattern, and what the user's names
      stand for. A typed relationship's name is no variable: it always means the type. */
  datatype Assignment = Assignment(nodes: seq<Node>, preds: seq<Node>)

  ghost predicate NodeMatches(store: Store, p: Pattern, a: Assignment, env: Binding, i: nat)
    requires i <= |p.hops| && |a.nodes| == |p.hops| + 1
  {
    && NodeHolds(store, NodeAt(p, i), a.nodes[i])
    && (NodeAt(p, i).variable.Some? ==> NodeAt(p, i).variable.value in env && env[NodeAt(p, i).variable.value] == a.nodes[i])
  }

  ghost predicate HopMatches(store: Store, p: Pattern, a: Assignment, env: Binding, i: nat)
    requires i < |p.hops| && |a.nodes| == |p.hops| + 1 && |a.preds| == |p.hops|
  {
    var rel := p.hops[i].rel;
    && HopHolds(store, rel, a.nodes[i], a.preds[i], a.nodes[i + 1])
    && (BindsPredicate(rel) && rel.variable.Some? ==> rel.variable.value in env && env[rel.variable.value] == a.preds[i])
  }

  ghost predicate Homomorphism(store: Store, p: Pattern, a: Assignment, env: Binding) {
    && |a.nodes| == |p.hops| + 1 && |a.preds| == |p.hops|
    && env.Keys == UserVars(p, |p.hops|)
    && (forall i: nat :: i <= |p.hops| ==> NodeMatches(store, p, a, env, i))
    && (forall i: nat :: i < |p.hops| ==> HopMatches(store, p, a, env, i))
  }

  function NameIn(name: Option<string>): set<string> { match name case Some(n) => {n} case None => {} }

  /** The names that stand for nodes or edge types. */
  function UserVars(p: Pattern, n: nat): set<Var>
    requires n <= |p.hops|
  {
    if n == 0 then NameIn(p.start.variable)
    else
      UserVars(p, n - 1) + NameIn(p.hops[n - 1].node.variable)
      + (if BindsPredicate(p.hops[n - 1].rel) then NameIn(p.hops[n - 1].rel.variable) else {})
  }

  ghost predicate Matched(store: Store, p: Pattern, env: Binding) {
    exists a :: Homomorphism(store, p, a, env)
  }

  // ---- What the lowered pattern means ----

  function Lowered(p: Pattern, c: nat): GraphPattern {
    Base(PatternTriples(p, c, |p.hops|), PatternPaths(p, c, |p.hops|))
  }

  ghost predicate Found(store: Store, ev: Evaluator, p: Pattern, c: nat, env: Binding) {
    exists m :: Solution(store, ev, Lowered(p, c), m) && Restrict(m, UserVars(p, |p.hops|)) == env
  }

  /** No name the user wrote is one the lowering makes up for this pattern. */
  ghost predicate NoCollision(p: Pattern, c: nat) {
    && (forall i: nat :: i <= |p.hops| && NodeAt(p, i).variable.None? ==> NodeVarOf(p, c, i) !in UserVars(p, |p.hops|))
    && (forall i: nat :: i < |p.hops| && TakesRelName(p.hops[i].rel) ==> RelVarOf(p, c, i) !in UserVars(p, |p.hops|))
  }

  /** Parts of the pattern that share a variable have the same value. */
  ghost predicate Agrees(p: Pattern, c: nat, a: Assignment) {
    && |a.nodes| == |p.hops| + 1 && |a.preds| == |p.hops|
    && (forall i: nat, j: nat :: i <= |p.hops| && j <= |p.hops| && NodeVarOf(p, c, i) == NodeVarOf(p, c, j) ==> a.nodes[i] == a.nodes[j])
    && (forall i: nat, j: nat :: i < |p.hops| && j < |p.hops| && SameRel(p, c, i, j) ==> a.preds[i] == a.preds[j])
    && (forall i: nat, j: nat :: i <= |p.hops| && j < |p.hops| && NodeIsRel(p, c, i, j) ==> a.nodes[i] == a.preds[j])
  }

  predicate SameRel(p: Pattern, c: nat, i: nat, j: nat)
    requires i < |p.hops| && j < |p.hops|
  {
    BindsPredicate(p.hops[i].rel) && BindsPredicate(p.hops[j].rel) && RelVarOf(p, c, i) == RelVarOf(p, c, j)
  }

  predicate NodeIsRel(p: Pattern, c: nat, i: nat, j: nat)
    requires i <= |p.hops| && j < |p.hops|
  {
    BindsPredicate(p.hops[j].rel) && NodeVarOf(p, c, i) == RelVarOf(p, c, j)
  }

  /** The pattern puts some condition on its nodes. */
  predicate Anchored(p: Pattern) { p.hops != [] || p.start.labels != [] || p.start.properties != [] }

  // ---- Solutions of a base pattern ----

  function PathVars(paths: seq<GraphPattern>): set<Var>
    requires forall q :: q in paths ==> q.Path?
  {
    if paths == [] then {} else PathVars(paths[..|paths| - 1]) + {paths[|paths| - 1].s, paths[|paths| - 1].o}
  }

  ghost predicate PathMatches(store: Store, q: GraphPattern, m: Binding) {
    q.Path? && q.s in m && q.o in m && PathHolds(store, q.zeroOk, q.p, m[q.s], m[q.o])
  }

  ghost predicate BaseHolds(store: Store, ts: seq<TriplePattern>, paths: seq<GraphPattern>, m: Binding) {
    && (forall t :: t in ts ==> Matches(store, t, m))
    && (forall q :: q in paths ==> PathMatches(store, q, m))
  }

  predicate AllPaths(paths: seq<GraphPattern>) { forall q :: q in paths ==> q.Path? }

  lemma {:induction false} BaseSound(store: Store, ev: Evaluator, ts: seq<TriplePattern>, paths: seq<GraphPattern>, m: Binding)
    requires AllPaths(paths) && Solution(store, ev, Base(ts, paths), m)
    ensures m.Keys == AllVars(ts) + PathVars(paths) && BaseHolds(store, ts, paths, m)
    decreases |paths|
  {
    if paths != [] {
      var rest, last := paths[..|paths| - 1], paths[|paths| - 1];
      assert last in paths && last.Path?;
      var a, b :| Solution(store, ev, Base(ts, rest), a) && Solution(store, ev, last, b) && Compatible(a, b) && m == a + b;
      BaseSound(store, ev, ts, rest, a);
      assert b.Keys == {last.s, last.o} && PathMatches(store, last, b);
      JoinHolds(store, ts, paths, a, b);
    }
  }

  lemma JoinHolds(store: Store, ts: seq<TriplePattern>, paths: seq<GraphPattern>, a: Binding, b: Binding)
    requires AllPaths(paths) && paths != [] && Compatible(a, b)
    requires AllVars(ts) <= a.Keys && BaseHolds(store, ts, paths[..|paths| - 1], a) && PathMatches(store, paths[|paths| - 1], b)
    ensures BaseHolds(store, ts, paths, a + b)
  {
    hide PathHolds, Inst, AllVars;
    var m := a + b;
    assert forall v :: v in a ==> v in m && m[v] == a[v];
    forall t | t in ts ensures Matches(store, t, m) { assert Matches(store, t, a); MatchesGrows(store, t, a, m); }
    forall q | q in paths ensures PathMatches(store, q, m) {
      if q in paths[..|paths| - 1] { assert PathMatches(store, q, a); }
    }
  }

  lemma MatchesGrows(store: Store, t: TriplePattern, a: Binding, b: Binding)
    requires forall v :: v in a ==> v in b && b[v] == a[v]
    requires TripleVars(t) <= a.Keys
    ensures Matches(store, t, a) <==> Matches(store, t, b)
  {
    InstSame(t.s, a, b);
    InstSame(t.p, a, b);
    InstSame(t.o, a, b);
  }

  lemma {:induction false} InstSame(t: TermPattern, a: Binding, b: Binding)
    requires TermVars(t) <= a.Keys && TermVars(t) <= b.Keys
    requires forall v :: v in TermVars(t) ==> b[v] == a[v]
    ensures Inst(t, a) == Inst(t, b)
    decreases t
  {
    match t
    case V(_) =>
    case C(_) =>
    case Q(s, p, o) => InstSame(s, a, b); InstSame(p, a, b); InstSame(o, a, b);
  }

  lemma {:induction false} BaseComplete(store: Store, ev: Evaluator, ts: seq<TriplePattern>, paths: seq<GraphPattern>, m: Binding)
    requires AllPaths(paths) && m.Keys == AllVars(ts) + PathVars(paths) && BaseHolds(store, ts, paths, m)
    ensures Solution(store, ev, Base(ts, paths), m)
    decreases |paths|
  {
    if paths != [] {
      var rest, last := paths[..|paths| - 1], paths[|paths| - 1];
      var a := Restrict(m, AllVars(ts) + PathVars(rest));
      var b := Restrict(m, {last.s, last.o});
      forall t | t in ts ensures Matches(store, t, a) {
        assert Matches(store, t, m);
        MemberVars(ts, t);
        MatchesGrows(store, t, a, m);
      }
      forall q | q in rest ensures PathMatches(store, q, a) {
        assert q in paths && PathMatches(store, q, m);
        MemberPathVars(rest, q);
      }
      BaseComplete(store, ev, ts, rest, a);
      assert PathMatches(store, last, m);
      assert Solution(store, ev, last, b);
      assert m == a + b;
    }
  }

  lemma MemberVars(ts: seq<TriplePattern>, t: TriplePattern)
    requires t in ts
    ensures TripleVars(t) <= AllVars(ts)
  {
    var i: nat :| i < |ts| && ts[i] == t;
    VarsOfMember(ts, i);
  }

  lemma {:induction false} MemberPathVars(paths: seq<GraphPattern>, q: GraphPattern)
    requires AllPaths(paths) && q in paths
    ensures {q.s, q.o} <= PathVars(paths)
    decreases |paths|
  {
    if q != paths[|paths| - 1] {
      assert q in paths[..|paths| - 1];
      MemberPathVars(paths[..|paths| - 1], q);
    }
  }

  // ---- The variables of a lowered pattern ----

  /** The variables of the first `n` hops, named or not. */
  function Slots(p: Pattern, c: nat, n: nat): set<Var>
    requires n <= |p.hops|
  {
    if n == 0 then {NodeVarOf(p, c, 0)}
    else Slots(p, c, n - 1) + {NodeVarOf(p, c, n)} + if BindsPredicate(p.hops[n - 1].rel) then {RelVarOf(p, c, n - 1)} else {}
  }

  lemma {:induction false} LabelVars(v: Var, labels: seq<string>)
    ensures AllVars(LabelTriples(v, labels)) == if labels == [] then {} else {v}
    decreases |labels|
  {
    if labels != [] {
      LabelVars(v, labels[..|labels| - 1]);
      var front := LabelTriples(v, labels[..|labels| - 1]);
      assert (front + [LabelTriple(v, labels[|labels| - 1])])[..|front|] == front;
    }
  }

  lemma {:induction false} PropVars(subject: TermPattern, props: seq<(string, Literal)>)
    ensures AllVars(PropTriples(subject, props)) == if props == [] then {} else TermVars(subject)
    decreases |props|
  {
    if props != [] {
      PropVars(subject, props[..|props| - 1]);
      var front := PropTriples(subject, props[..|props| - 1]);
      assert (front + [PropTriple(subject, props[|props| - 1])])[..|front|] == front;
    }
  }

  lemma NodeVars(v: Var, node: NodePattern)
    ensures AllVars(NodeTriples(v, node)) == if node.labels == [] && node.properties == [] then {} else {v}
  {
    LabelVars(v, node.labels);
    PropVars(V(v), node.properties);
    AllVarsOfConcat(LabelTriples(v, node.labels), PropTriples(V(v), node.properties));
  }

  lemma HopVars(rel: RelPattern, from: Var, to: Var, v: Var)
    requires RelAccepted(rel)
    ensures AllPaths(RelPaths(rel, from, to))
    ensures AllVars(RelTriples(rel, from, to, v)) + PathVars(RelPaths(rel, from, to)) == {from, to} + if BindsPredicate(rel) then {v} else {}
  {
    if rel.varLength.Some? {
      assert RelPaths(rel, from, to)[..0] == [];
    } else {
      EdgeVars(rel, from, to, v);
    }
  }

  lemma EdgeVars(rel: RelPattern, from: Var, to: Var, v: Var)
    requires rel.varLength.None?
    ensures RelPaths(rel, from, to) == []
    ensures AllVars(RelTriples(rel, from, to, v)) == {from, to} + if BindsPredicate(rel) then {v} else {}
  {
    hide TermVars, TripleVars, PropTriples, RelIri, AllVars;
    var (s, o) := Ends(rel, from, to);
    var edge, quoted := TP(V(s), PredicateOf(rel, v), V(o)), Q(V(s), PredicateOf(rel, v), V(o));
    OneEdgeVars(rel, s, o, v);
    PropVars(quoted, rel.properties);
    AllVarsOfConcat([edge], PropTriples(quoted, rel.properties));
  }

  lemma OneEdgeVars(rel: RelPattern, s: Var, o: Var, v: Var)
    requires rel.varLength.None?
    ensures
      var vars := {s, o} + if BindsPredicate(rel) then {v} else {};
      AllVars([TP(V(s), PredicateOf(rel, v), V(o))]) == vars && TermVars(Q(V(s), PredicateOf(rel, v), V(o))) == vars && AllVars([]) == {}
  {
    hide RelIri;
    var edge := TP(V(s), PredicateOf(rel, v), V(o));
    assert [edge][..0] == [];
    assert TermVars(PredicateOf(rel, v)) == if BindsPredicate(rel) then {v} else {};
  }

  lemma {:induction false} PathVarsOfConcat(a: seq<GraphPattern>, b: seq<GraphPattern>)
    requires AllPaths(a) && AllPaths(b)
    ensures PathVars(a + b) == PathVars(a) + PathVars(b)
    decreases |b|
  {
    if b == [] {
      assert a + b == a;
    } else {
      assert (a + b)[..|a + b| - 1] == a + b[..|b| - 1];
      PathVarsOfConcat(a, b[..|b| - 1]);
    }
  }

  lemma {:induction false} PatternVars(p: Pattern, c: nat, n: nat)
    requires Accepted(p) && n <= |p.hops|
    ensures AllPaths(PatternPaths(p, c, n))
    ensures AllVars(PatternTriples(p, c, n)) + PathVars(PatternPaths(p, c, n))
            == if n == 0 && p.start.labels == [] && p.start.properties == [] then {} else Slots(p, c, n)
    decreases n
  {
    hide NodeVarOf, RelVarOf, NodeTriples, RelTriples, RelPaths, RelAccepted, NodeAccepted, BindsPredicate, AllVars;
    NodeVars(NodeVarOf(p, c, n), NodeAt(p, n));
    if n > 0 {
      var rel := p.hops[n - 1].rel;
      var from, to, v := NodeVarOf(p, c, n - 1), NodeVarOf(p, c, n), RelVarOf(p, c, n - 1);
      PatternVars(p, c, n - 1);
      HopVars(rel, from, to, v);
      var before, node, hop := PatternTriples(p, c, n - 1), NodeTriples(to, p.hops[n - 1].node), RelTriples(rel, from, to, v);
      AllVarsOfConcat(before, node);
      AllVarsOfConcat(before + node, hop);
      PathVarsOfConcat(PatternPaths(p, c, n - 1), RelPaths(rel, from, to));
    }
  }

  lemma {:induction false} SlotsHave(p: Pattern, c: nat, n: nat, i: nat)
    requires i <= n <= |p.hops|
    ensures NodeVarOf(p, c, i) in Slots(p, c, n)
    ensures i < n && BindsPredicate(p.hops[i].rel) ==> RelVarOf(p, c, i) in Slots(p, c, n)
    decreases n
  {
    if i < n { SlotsHave(p, c, n - 1, i); }
  }

  lemma {:induction false} UserVarsAreSlots(p: Pattern, c: nat, n: nat)
    requires n <= |p.hops|
    ensures UserVars(p, n) <= Slots(p, c, n)
    decreases n
  {
    if n > 0 { UserVarsAreSlots(p, c, n - 1); }
  }

  lemma {:induction false} UserVarsHave(p: Pattern, n: nat, i: nat)
    requires i <= n <= |p.hops|
    ensures NodeAt(p, i).variable.Some? ==> NodeAt(p, i).variable.value in UserVars(p, n)
    ensures i < n && BindsPredicate(p.hops[i].rel) && p.hops[i].rel.variable.Some? ==> p.hops[i].rel.variable.value in UserVars(p, n)
    decreases n
  {
    if i < n { UserVarsHave(p, n - 1, i); }
  }

  // ---- Piece by piece ----

  lemma BaseHoldsOfConcat(store: Store, ts: seq<TriplePattern>, us: seq<TriplePattern>,
                          paths: seq<GraphPattern>, qs: seq<GraphPattern>, m: Binding)
    ensures BaseHolds(store, ts + us, paths + qs, m) <==> BaseHolds(store, ts, paths, m) && BaseHolds(store, us, qs, m)
  {
    hide Matches, PathMatches;
    assert forall t :: t in ts + us <==> t in ts || t in us;
    assert forall q :: q in paths + qs <==> q in paths || q in qs;
  }

  ghost predicate NodePart(store: Store, p: Pattern, c: nat, m: Binding, i: nat)
    requires i <= |p.hops|
  {
    BaseHolds(store, NodeTriples(NodeVarOf(p, c, i), NodeAt(p, i)), [], m)
  }

  ghost predicate HopPart(store: Store, p: Pattern, c: nat, m: Binding, i: nat)
    requires i < |p.hops|
  {
    var rel, from, to := p.hops[i].rel, NodeVarOf(p, c, i), NodeVarOf(p, c, i + 1);
    BaseHolds(store, RelTriples(rel, from, to, RelVarOf(p, c, i)), RelPaths(rel, from, to), m)
  }

  lemma {:induction false} InParts(store: Store, p: Pattern, c: nat, m: Binding, n: nat)
    requires n <= |p.hops|
    ensures BaseHolds(store, PatternTriples(p, c, n), PatternPaths(p, c, n), m)
            <==> (forall i: nat :: i <= n ==> NodePart(store, p, c, m, i)) && (forall i: nat :: i < n ==> HopPart(store, p, c, m, i))
    decreases n
  {
    hide BaseHolds, NodeVarOf, RelVarOf, NodeTriples, RelTriples, RelPaths;
    if n > 0 {
      var k: nat := n - 1;
      var rel := p.hops[k].rel;
      var from, to, v := NodeVarOf(p, c, k), NodeVarOf(p, c, n), RelVarOf(p, c, k);
      var node, hop := NodeTriples(to, p.hops[k].node), RelTriples(rel, from, to, v);
      InParts(store, p, c, m, k);
      BaseHoldsOfConcat(store, PatternTriples(p, c, k), node, PatternPaths(p, c, k), [], m);
      assert PatternPaths(p, c, k) + [] == PatternPaths(p, c, k);
      BaseHoldsOfConcat(store, PatternTriples(p, c, k) + node, hop, PatternPaths(p, c, k), RelPaths(rel, from, to), m);
      assert NodePart(store, p, c, m, n) == BaseHolds(store, node, [], m);
      assert HopPart(store, p, c, m, k) == BaseHolds(store, hop, RelPaths(rel, from, to), m);
    } else {
      assert NodePart(store, p, c, m, 0) == BaseHolds(store, PatternTriples(p, c, 0), [], m);
    }
  }

  lemma {:induction false} LabelsHold(store: Store, m: Binding, v: Var, labels: seq<string>)
    requires v in m
    ensures (forall t :: t in LabelTriples(v, labels) ==> Matches(store, t, m)) <==> (forall name :: name in labels ==> HasLabel(store, m[v], name))
    decreases |labels|
  {
    if labels != [] {
      var front, last := labels[..|labels| - 1], labels[|labels| - 1];
      LabelsHold(store, m, v, front);
      assert Matches(store, LabelTriple(v, last), m) <==> HasLabel(store, m[v], last);
      assert labels == front + [last];
    }
  }

  lemma {:induction false} PropsHold(store: Store, m: Binding, subject: TermPattern, props: seq<(string, Literal)>)
    requires TermVars(subject) <= m.Keys && NoNulls(props)
    ensures (forall t :: t in PropTriples(subject, props) ==> Matches(store, t, m))
            <==> (forall kv :: kv in props ==> HasProperty(store, Inst(subject, m), kv))
    decreases |props|
  {
    if props != [] {
      var front, last := props[..|props| - 1], props[|props| - 1];
      PropsHold(store, m, subject, front);
      var ts, x := PropTriples(subject, props), Inst(subject, m);
      assert ts == PropTriples(subject, front) + [PropTriple(subject, last)];
      assert Matches(store, PropTriple(subject, last), m) <==> HasProperty(store, x, last);
      hide Matches, HasProperty;
      if forall t :: t in ts ==> Matches(store, t, m) {
        assert PropTriple(subject, last) in ts;
        forall kv | kv in props ensures HasProperty(store, x, kv) { assert kv in front || kv == last; }
      }
      if forall kv :: kv in props ==> HasProperty(store, x, kv) {
        assert last in props;
        assert forall kv :: kv in front ==> kv in props;
      }
    }
  }

  lemma NodePartHolds(store: Store, m: Binding, v: Var, node: NodePattern)
    requires NoNulls(node.properties) && v in m
    ensures BaseHolds(store, NodeTriples(v, node), [], m)
            <==> (forall name :: name in node.labels ==> HasLabel(store, m[v], name)) && (forall kv :: kv in node.properties ==> HasProperty(store, m[v], kv))
  {
    LabelsHold(store, m, v, node.labels);
    PropsHold(store, m, V(v), node.properties);
    hide Matches, HasLabel, HasProperty;
    assert forall t :: t in NodeTriples(v, node) <==> t in LabelTriples(v, node.labels) || t in PropTriples(V(v), node.properties);
  }

  /** The edge type a hop stands for in a solution. */
  function PredOf(rel: RelPattern, v: Var, m: Binding): Node
    requires BindsPredicate(rel) ==> v in m
  {
    if BindsPredicate(rel) then m[v] else if rel.relType.Some? then RelIri(rel.relType.value) else RDF_TYPE
  }

  lemma HopPartHolds(store: Store, m: Binding, rel: RelPattern, from: Var, to: Var, v: Var)
    requires RelAccepted(rel) && from in m && to in m && (BindsPredicate(rel) ==> v in m)
    ensures BaseHolds(store, RelTriples(rel, from, to, v), RelPaths(rel, from, to), m)
            <==> HopHolds(store, rel, m[from], PredOf(rel, v, m), m[to])
  {
    hide PathHolds, BoundedWalk, RelIri, Inst, HasProperty;
    var (s, o) := Ends(rel, from, to);
    if rel.varLength.Some? {
      var q := RelPaths(rel, from, to)[0];
      assert rel.properties == [];
      BoundsArePath(store, rel.varLength.value, q.p, m[s], m[o]);
      assert PathMatches(store, q, m) <==> PathHolds(store, q.zeroOk, q.p, m[s], m[o]);
    } else {
      var edge := TP(V(s), PredicateOf(rel, v), V(o));
      var quoted := Q(V(s), PredicateOf(rel, v), V(o));
      PropsHold(store, m, quoted, rel.properties);
      InstOfEdge(m, rel, s, o, v);
      var props := PropTriples(quoted, rel.properties);
      assert RelTriples(rel, from, to, v) == [edge] + props;
      assert forall t :: t in [edge] + props <==> t == edge || t in props;
      assert Matches(store, edge, m) <==> Triple(m[s], PredOf(rel, v, m), m[o]) in store;
    }
  }

  lemma NoStep(store: Store, p: Node, x: Node, y: Node)
    ensures Walk(store, p, 0, x, y) <==> x == y
  {
  }

  lemma {:induction false} PlainEdges(store: Store, p: Node, n: nat, x: Node, y: Node)
    ensures EdgesHold(store, p, [], n, x, y) <==> Walk(store, p, n, x, y)
    decreases n
  {
    if n > 0 {
      var k: nat := n - 1;
      forall z ensures EdgesHold(store, p, [], k, z, y) <==> Walk(store, p, k, z, y) { PlainEdges(store, p, k, z, y); }
    }
  }

  ghost predicate WalkWithin(store: Store, bounds: VarLength, p: Node, x: Node, y: Node) {
    exists n: nat :: WithinBounds(bounds, n) && Walk(store, p, n, x, y) && (n == 0 ==> IsNode(store, x))
  }

  lemma PlainBounds(store: Store, bounds: VarLength, p: Node, x: Node, y: Node)
    ensures BoundedWalk(store, bounds, p, [], x, y) <==> WalkWithin(store, bounds, p, x, y)
  {
    forall n: nat ensures EdgesHold(store, p, [], n, x, y) <==> Walk(store, p, n, x, y) { PlainEdges(store, p, n, x, y); }
    hide Walk, IsNode, EdgesHold, WithinBounds;
  }

  lemma StepsAllowed(bounds: VarLength, n: nat)
    requires bounds.max.None? && (bounds.min.None? || bounds.min.value <= 1)
    ensures WithinBounds(bounds, n) <==> n > 0 || bounds.min == Some(0)
  {
  }

  /** The bounds that are accepted are those of a path. */
  lemma BoundsArePath(store: Store, bounds: VarLength, p: Node, x: Node, y: Node)
    requires bounds.max.None? && (bounds.min.None? || bounds.min.value <= 1)
    ensures BoundedWalk(store, bounds, p, [], x, y) <==> PathHolds(store, bounds.min == Some(0), p, x, y)
  {
    hide Walk, IsNode, BoundedWalk, WithinBounds;
    NoStep(store, p, x, y);
    PlainBounds(store, bounds, p, x, y);
    forall n: nat ensures WithinBounds(bounds, n) <==> n > 0 || bounds.min == Some(0) { StepsAllowed(bounds, n); }
    if WalkWithin(store, bounds, p, x, y) {
      var n: nat :| WithinBounds(bounds, n) && Walk(store, p, n, x, y) && (n == 0 ==> IsNode(store, x));
      assert n > 0 || (bounds.min == Some(0) && x == y && IsNode(store, x));
    }
    if PathHolds(store, bounds.min == Some(0), p, x, y) {
      if n: nat :| n > 0 && Walk(store, p, n, x, y) { assert WithinBounds(bounds, n); } else { assert WithinBounds(bounds, 0); }
    }
  }

  lemma InstOfEdge(m: Binding, rel: RelPattern, s: Var, o: Var, v: Var)
    requires rel.varLength.None? && s in m && o in m && (BindsPredicate(rel) ==> v in m)
    ensures TermVars(PredicateOf(rel, v)) <= m.Keys
    ensures InstTriple(TP(V(s), PredicateOf(rel, v), V(o)), m) == Triple(m[s], PredOf(rel, v, m), m[o])
    ensures Inst(Q(V(s), PredicateOf(rel, v), V(o)), m) == Quoted(m[s], PredOf(rel, v, m), m[o])
  {
    assert Inst(PredicateOf(rel, v), m) == PredOf(rel, v, m);
  }

  // ---- Every solution is a match ----

  lemma {:induction false} WalkEndsAreNodes(store: Store, p: Node, n: nat, x: Node, y: Node)
    requires n > 0 && Walk(store, p, n, x, y)
    ensures IsNode(store, x) && IsNode(store, y)
    decreases n
  {
    var z :| Triple(x, p, z) in store && Walk(store, p, n - 1, z, y);
    assert Triple(x, p, z).s == x && Triple(x, p, z).o == z;
    if n > 1 { WalkEndsAreNodes(store, p, n - 1, z, y); }
  }

  lemma {:induction false} EdgesAreWalk(store: Store, p: Node, props: seq<(string, Literal)>, n: nat, x: Node, y: Node)
    requires EdgesHold(store, p, props, n, x, y)
    ensures Walk(store, p, n, x, y)
    decreases n
  {
    hide HasProperty;
    if n > 0 {
      var z :| Triple(x, p, z) in store && EdgesHold(store, p, props, n - 1, z, y)
        && forall kv :: kv in props ==> HasProperty(store, Quoted(x, p, z), kv);
      EdgesAreWalk(store, p, props, n - 1, z, y);
    }
  }

  lemma EdgeEndsAreNodes(store: Store, rel: RelPattern, x: Node, pred: Node, y: Node)
    requires EdgeHolds(store, rel, x, pred, y)
    ensures IsNode(store, x) && IsNode(store, y)
  {
    match rel.varLength
    case Some(bounds) =>
      var p := RelIri(rel.relType.value);
      var n: nat :| WithinBounds(bounds, n) && EdgesHold(store, p, rel.properties, n, x, y) && (n == 0 ==> IsNode(store, x));
      EdgesAreWalk(store, p, rel.properties, n, x, y);
      if n > 0 { WalkEndsAreNodes(store, p, n, x, y); }
    case None =>
      assert Triple(x, pred, y).s == x && Triple(x, pred, y).o == y;
  }

  lemma HopEndsAreNodes(store: Store, rel: RelPattern, from: Node, pred: Node, to: Node)
    requires HopHolds(store, rel, from, pred, to)
    ensures IsNode(store, from) && IsNode(store, to)
  {
    hide EdgeHolds, IsNode;
    if rel.direction.Left? { EdgeEndsAreNodes(store, rel, to, pred, from); } else { EdgeEndsAreNodes(store, rel, from, pred, to); }
  }

  lemma ConditionMakesNode(store: Store, node: NodePattern, x: Node)
    requires node.labels != [] || node.properties != []
    requires forall name :: name in node.labels ==> HasLabel(store, x, name)
    requires forall kv :: kv in node.properties ==> HasProperty(store, x, kv)
    ensures IsNode(store, x)
  {
    if node.labels != [] {
      assert HasLabel(store, x, node.labels[0]);
      assert Triple(x, RDF_TYPE, LabelIri(node.labels[0])).s == x;
    } else {
      var kv := node.properties[0];
      assert HasProperty(store, x, kv);
      assert Triple(x, PropIri(kv.0), Value(kv.1)).s == x;
    }
  }

  /** The parts of the pattern as a solution of the lowered one sees them. */
  function Read(p: Pattern, c: nat, m: Binding): Assignment
    requires Slots(p, c, |p.hops|) <= m.Keys
  {
    Assignment(
      seq(|p.hops| + 1, i requires 0 <= i <= |p.hops| => SlotsHave(p, c, |p.hops|, i); m[NodeVarOf(p, c, i)]),
      seq(|p.hops|, i requires 0 <= i < |p.hops| => SlotsHave(p, c, |p.hops|, i); PredOf(p.hops[i].rel, RelVarOf(p, c, i), m)))
  }

  lemma HopIsRead(store: Store, p: Pattern, c: nat, m: Binding, i: nat)
    requires Accepted(p) && i < |p.hops| && Slots(p, c, |p.hops|) <= m.Keys && HopPart(store, p, c, m, i)
    ensures HopMatches(store, p, Read(p, c, m), Restrict(m, UserVars(p, |p.hops|)), i)
    ensures IsNode(store, Read(p, c, m).nodes[i]) && IsNode(store, Read(p, c, m).nodes[i + 1])
  {
    hide HopHolds, BaseHolds, RelAccepted, NodeAccepted, IsNode, Slots, UserVars;
    var rel, v := p.hops[i].rel, RelVarOf(p, c, i);
    SlotsHave(p, c, |p.hops|, i);
    SlotsHave(p, c, |p.hops|, i + 1);
    UserVarsHave(p, |p.hops|, i);
    HopPartHolds(store, m, rel, NodeVarOf(p, c, i), NodeVarOf(p, c, i + 1), v);
    var a := Read(p, c, m);
    HopEndsAreNodes(store, rel, a.nodes[i], a.preds[i], a.nodes[i + 1]);
  }

  lemma NodeIsRead(store: Store, p: Pattern, c: nat, m: Binding, i: nat)
    requires Accepted(p) && i <= |p.hops| && Slots(p, c, |p.hops|) <= m.Keys && NodePart(store, p, c, m, i)
    requires |p.hops| > 0 || !Anchored(p) ==> IsNode(store, Read(p, c, m).nodes[i])
    ensures NodeMatches(store, p, Read(p, c, m), Restrict(m, UserVars(p, |p.hops|)), i)
  {
    hide BaseHolds, IsNode, HasLabel, HasProperty;
    SlotsHave(p, c, |p.hops|, i);
    UserVarsHave(p, |p.hops|, i);
    NodePartHolds(store, m, NodeVarOf(p, c, i), NodeAt(p, i));
    if |p.hops| == 0 && Anchored(p) { ConditionMakesNode(store, p.start, m[NodeVarOf(p, c, 0)]); }
  }

  /** A binding under which all parts of the lowered pattern hold reads as a homomorphism. */
  lemma HoldingIsHomomorphism(store: Store, p: Pattern, c: nat, m: Binding)
    requires Accepted(p) && Slots(p, c, |p.hops|) <= m.Keys
    requires BaseHolds(store, PatternTriples(p, c, |p.hops|), PatternPaths(p, c, |p.hops|), m)
    requires Anchored(p) || IsNode(store, Read(p, c, m).nodes[0])
    ensures Homomorphism(store, p, Read(p, c, m), Restrict(m, UserVars(p, |p.hops|)))
  {
    hide NodePart, HopPart, NodeMatches, HopMatches, IsNode, PatternTriples, PatternPaths, Slots, UserVars, BaseHolds;
    var n := |p.hops|;
    InParts(store, p, c, m, n);
    UserVarsAreSlots(p, c, n);
    var a, env := Read(p, c, m), Restrict(m, UserVars(p, n));
    forall i: nat | i < n ensures HopMatches(store, p, a, env, i) { HopIsRead(store, p, c, m, i); }
    forall i: nat | i <= n ensures NodeMatches(store, p, a, env, i) {
      if i < n { HopIsRead(store, p, c, m, i); } else if n > 0 { HopIsRead(store, p, c, m, n - 1); }
      NodeIsRead(store, p, c, m, i);
    }
  }

  /** Every solution reads as a homomorphism, whatever the names are. */
  lemma ReadIsHomomorphism(store: Store, ev: Evaluator, p: Pattern, c: nat, m: Binding)
    requires Accepted(p) && Anchored(p) && Solution(store, ev, Lowered(p, c), m)
    ensures Slots(p, c, |p.hops|) <= m.Keys && Homomorphism(store, p, Read(p, c, m), Restrict(m, UserVars(p, |p.hops|)))
  {
    hide Homomorphism, IsNode, PatternTriples, PatternPaths, Slots, UserVars, BaseHolds, Solution;
    PatternVars(p, c, |p.hops|);
    BaseSound(store, ev, PatternTriples(p, c, |p.hops|), PatternPaths(p, c, |p.hops|), m);
    HoldingIsHomomorphism(store, p, c, m);
  }

  lemma FoundIsMatched(store: Store, ev: Evaluator, p: Pattern, c: nat, env: Binding)
    requires Accepted(p) && Anchored(p) && Found(store, ev, p, c, env)
    ensures Matched(store, p, env)
  {
    hide Lowered, Homomorphism, Slots, UserVars, Accepted;
    var m :| Solution(store, ev, Lowered(p, c), m) && Restrict(m, UserVars(p, |p.hops|)) == env;
    ReadIsHomomorphism(store, ev, p, c, m);
    assert Homomorphism(store, p, Read(p, c, m), env);
  }

  lemma ReadAgrees(p: Pattern, c: nat, m: Binding)
    requires Slots(p, c, |p.hops|) <= m.Keys
    ensures Agrees(p, c, Read(p, c, m))
  {
    hide NodeVarOf, RelVarOf, Slots;
    var n := |p.hops|;
    forall i: nat | i <= n ensures NodeVarOf(p, c, i) in m && Read(p, c, m).nodes[i] == m[NodeVarOf(p, c, i)] { SlotsHave(p, c, n, i); }
    forall i: nat | i < n && BindsPredicate(p.hops[i].rel) ensures RelVarOf(p, c, i) in m && Read(p, c, m).preds[i] == m[RelVarOf(p, c, i)] {
      SlotsHave(p, c, n, i);
    }
  }

  // ---- When names do not collide, every match agrees ----

  lemma {:induction false} CounterGrows(p: Pattern, c: nat, i: nat, j: nat)
    requires i <= j <= |p.hops|
    ensures CounterAfter(p, c, i) <= CounterAfter(p, c, j)
    decreases j
  {
    if i < j { CounterGrows(p, c, i, j - 1); }
  }

  lemma NodeStampsGrow(p: Pattern, c: nat, i: nat, j: nat)
    requires i < j <= |p.hops| && NodeAt(p, i).variable.None?
    ensures NodeStamp(p, c, i) < NodeStamp(p, c, j)
  {
    CounterGrows(p, c, i, j - 1);
  }

  lemma RelStampsGrow(p: Pattern, c: nat, i: nat, j: nat)
    requires i < j < |p.hops| && TakesRelName(p.hops[i].rel)
    ensures RelStamp(p, c, i) < RelStamp(p, c, j)
  {
    CounterGrows(p, c, i + 1, j);
  }

  lemma SameNodeVar(store: Store, p: Pattern, c: nat, a: Assignment, env: Binding, i: nat, j: nat)
    requires Homomorphism(store, p, a, env) && NoCollision(p, c)
    requires i < j <= |p.hops| && NodeVarOf(p, c, i) == NodeVarOf(p, c, j)
    ensures a.nodes[i] == a.nodes[j]
  {
    hide NodeHolds, HopMatches, NodeStamp, FreshName, UserVars;
    UserVarsHave(p, |p.hops|, i);
    UserVarsHave(p, |p.hops|, j);
    assert NodeMatches(store, p, a, env, i) && NodeMatches(store, p, a, env, j);
    if NodeAt(p, i).variable.None? && NodeAt(p, j).variable.None? {
      NodeStampsGrow(p, c, i, j);
      FreshNamesDiffer("node", NodeStamp(p, c, i), NodeStamp(p, c, j));
    }
  }

  lemma SameRelVar(store: Store, p: Pattern, c: nat, a: Assignment, env: Binding, i: nat, j: nat)
    requires Homomorphism(store, p, a, env) && NoCollision(p, c)
    requires i < j < |p.hops| && RelVarOf(p, c, i) == RelVarOf(p, c, j) && BindsPredicate(p.hops[i].rel) && BindsPredicate(p.hops[j].rel)
    ensures a.preds[i] == a.preds[j]
  {
    hide HopHolds, NodeMatches, RelStamp, FreshName, UserVars;
    UserVarsHave(p, |p.hops|, i);
    UserVarsHave(p, |p.hops|, j);
    assert HopMatches(store, p, a, env, i) && HopMatches(store, p, a, env, j);
    if p.hops[i].rel.variable.None? && p.hops[j].rel.variable.None? {
      RelStampsGrow(p, c, i, j);
      FreshNamesDiffer("rel", RelStamp(p, c, i), RelStamp(p, c, j));
    }
  }

  lemma SameNodeAndRelVar(store: Store, p: Pattern, c: nat, a: Assignment, env: Binding, i: nat, j: nat)
    requires Homomorphism(store, p, a, env) && NoCollision(p, c)
    requires i <= |p.hops| && j < |p.hops| && NodeVarOf(p, c, i) == RelVarOf(p, c, j) && BindsPredicate(p.hops[j].rel)
    ensures a.nodes[i] == a.preds[j]
  {
    hide NodeHolds, HopHolds, NodeStamp, RelStamp, FreshName, UserVars;
    UserVarsHave(p, |p.hops|, i);
    UserVarsHave(p, |p.hops|, j);
    assert NodeMatches(store, p, a, env, i) && HopMatches(store, p, a, env, j);
    if NodeAt(p, i).variable.None? && p.hops[j].rel.variable.None? {
      FreshNamesApart("node", NodeStamp(p, c, i), "rel", RelStamp(p, c, j));
    }
  }

  lemma NoCollisionAgrees(store: Store, p: Pattern, c: nat, a: Assignment, env: Binding)
    requires Homomorphism(store, p, a, env) && NoCollision(p, c)
    ensures Agrees(p, c, a)
  {
    hide NodeVarOf, RelVarOf, NodeMatches, HopMatches, NoCollision, UserVars, BindsPredicate;
    forall i: nat, j: nat | i <= |p.hops| && j <= |p.hops| && NodeVarOf(p, c, i) == NodeVarOf(p, c, j) ensures a.nodes[i] == a.nodes[j] {
      if i < j { SameNodeVar(store, p, c, a, env, i, j); } else if j < i { SameNodeVar(store, p, c, a, env, j, i); }
    }
    forall i: nat, j: nat | i < |p.hops| && j < |p.hops| && SameRel(p, c, i, j) ensures a.preds[i] == a.preds[j] {
      if i < j { SameRelVar(store, p, c, a, env, i, j); } else if j < i { SameRelVar(store, p, c, a, env, j, i); }
    }
    forall i: nat, j: nat | i <= |p.hops| && j < |p.hops| && NodeIsRel(p, c, i, j) ensures a.nodes[i] == a.preds[j] {
      SameNodeAndRelVar(store, p, c, a, env, i, j);
    }
  }

  // ---- Every match that agrees is a solution ----

  /** A solution read off an assignment. */
  function Written(p: Pattern, c: nat, a: Assignment, n: nat): Binding
    requires n <= |p.hops| && |a.nodes| == |p.hops| + 1 && |a.preds| == |p.hops|
  {
    if n == 0 then map[NodeVarOf(p, c, 0) := a.nodes[0]]
    else
      var m := Written(p, c, a, n - 1)[NodeVarOf(p, c, n) := a.nodes[n]];
      if BindsPredicate(p.hops[n - 1].rel) then m[RelVarOf(p, c, n - 1) := a.preds[n - 1]] else m
  }

  lemma {:induction false} WrittenKeys(p: Pattern, c: nat, a: Assignment, n: nat)
    requires n <= |p.hops| && |a.nodes| == |p.hops| + 1 && |a.preds| == |p.hops|
    ensures Written(p, c, a, n).Keys == Slots(p, c, n)
    decreases n
  {
    hide NodeVarOf, RelVarOf, BindsPredicate;
    if n > 0 { WrittenKeys(p, c, a, n - 1); }
  }

  lemma {:induction false} WrittenNode(p: Pattern, c: nat, a: Assignment, n: nat, i: nat)
    requires Agrees(p, c, a) && i <= n <= |p.hops|
    ensures NodeVarOf(p, c, i) in Written(p, c, a, n) && Written(p, c, a, n)[NodeVarOf(p, c, i)] == a.nodes[i]
    decreases n
  {
    hide NodeVarOf, RelVarOf, BindsPredicate;
    if i < n { WrittenNode(p, c, a, n - 1, i); }
  }

  lemma {:induction false} WrittenRel(p: Pattern, c: nat, a: Assignment, n: nat, i: nat)
    requires Agrees(p, c, a) && i < n <= |p.hops| && BindsPredicate(p.hops[i].rel)
    ensures RelVarOf(p, c, i) in Written(p, c, a, n) && Written(p, c, a, n)[RelVarOf(p, c, i)] == a.preds[i]
    decreases n
  {
    hide NodeVarOf, RelVarOf, BindsPredicate;
    if i < n - 1 { WrittenRel(p, c, a, n - 1, i); }
  }

  lemma {:induction false} UserVarNamesPart(p: Pattern, n: nat, v: Var)
    requires n <= |p.hops| && v in UserVars(p, n)
    ensures (exists i: nat :: i <= n && NodeAt(p, i).variable == Some(v))
            || exists i: nat :: i < n && BindsPredicate(p.hops[i].rel) && p.hops[i].rel.variable == Some(v)
    decreases n
  {
    if NodeAt(p, n).variable != Some(v) {
      var k: nat := n - 1;
      if BindsPredicate(p.hops[k].rel) && p.hops[k].rel.variable == Some(v) {} else { UserVarNamesPart(p, k, v); }
    }
  }

  lemma WrittenGivesNames(store: Store, p: Pattern, c: nat, a: Assignment, env: Binding)
    requires Homomorphism(store, p, a, env) && Agrees(p, c, a)
    ensures Restrict(Written(p, c, a, |p.hops|), UserVars(p, |p.hops|)) == env
  {
    hide NodeHolds, HopHolds, Agrees, UserVars, Slots, Written;
    var n := |p.hops|;
    var m := Written(p, c, a, n);
    WrittenKeys(p, c, a, n);
    UserVarsAreSlots(p, c, n);
    forall v | v in UserVars(p, n) ensures m[v] == env[v] {
      UserVarNamesPart(p, n, v);
      if i: nat :| i <= n && NodeAt(p, i).variable == Some(v) {
        assert NodeMatches(store, p, a, env, i);
        WrittenNode(p, c, a, n, i);
      } else {
        var i: nat :| i < n && BindsPredicate(p.hops[i].rel) && p.hops[i].rel.variable == Some(v);
        assert HopMatches(store, p, a, env, i);
        WrittenRel(p, c, a, n, i);
      }
    }
  }

  lemma HopIsWritten(store: Store, p: Pattern, c: nat, a: Assignment, env: Binding, i: nat)
    requires Accepted(p) && Homomorphism(store, p, a, env) && Agrees(p, c, a) && i < |p.hops|
    ensures HopPart(store, p, c, Written(p, c, a, |p.hops|), i)
  {
    hide BaseHolds, Agrees, UserVars, Written, PathHolds, HasProperty, RelVarOf, NodeVarOf, NodeAccepted, NodeMatches;
    var n, rel := |p.hops|, p.hops[i].rel;
    var m := Written(p, c, a, n);
    WrittenNode(p, c, a, n, i);
    WrittenNode(p, c, a, n, i + 1);
    if BindsPredicate(rel) { WrittenRel(p, c, a, n, i); }
    assert HopMatches(store, p, a, env, i);
    assert HopHolds(store, rel, a.nodes[i], PredOf(rel, RelVarOf(p, c, i), m), a.nodes[i + 1]);
    HopPartHolds(store, m, rel, NodeVarOf(p, c, i), NodeVarOf(p, c, i + 1), RelVarOf(p, c, i));
  }

  lemma NodeIsWritten(store: Store, p: Pattern, c: nat, a: Assignment, env: Binding, i: nat)
    requires Accepted(p) && Homomorphism(store, p, a, env) && Agrees(p, c, a) && i <= |p.hops|
    ensures NodePart(store, p, c, Written(p, c, a, |p.hops|), i)
  {
    hide BaseHolds, Agrees, UserVars, Written, HasProperty, HasLabel, NodeVarOf, HopMatches;
    WrittenNode(p, c, a, |p.hops|, i);
    assert NodeMatches(store, p, a, env, i);
    NodePartHolds(store, Written(p, c, a, |p.hops|), NodeVarOf(p, c, i), NodeAt(p, i));
  }

  /** Under the binding written from a homomorphism all parts hold. */
  lemma WrittenHolds(store: Store, p: Pattern, c: nat, a: Assignment, env: Binding)
    requires Accepted(p) && Agrees(p, c, a) && Homomorphism(store, p, a, env)
    ensures |a.nodes| == |p.hops| + 1 && |a.preds| == |p.hops|
    ensures BaseHolds(store, PatternTriples(p, c, |p.hops|), PatternPaths(p, c, |p.hops|), Written(p, c, a, |p.hops|))
    ensures Written(p, c, a, |p.hops|).Keys == Slots(p, c, |p.hops|)
    ensures Restrict(Written(p, c, a, |p.hops|), UserVars(p, |p.hops|)) == env
  {
    hide NodePart, HopPart, Agrees, Homomorphism, PatternTriples, PatternPaths, Slots, UserVars, Written, Accepted, BaseHolds;
    var n := |p.hops|;
    HomomorphismShape(store, p, a, env);
    var m := Written(p, c, a, n);
    forall i: nat | i < n ensures HopPart(store, p, c, m, i) { HopIsWritten(store, p, c, a, env, i); }
    forall i: nat | i <= n ensures NodePart(store, p, c, m, i) { NodeIsWritten(store, p, c, a, env, i); }
    InParts(store, p, c, m, n);
    WrittenKeys(p, c, a, n);
    WrittenGivesNames(store, p, c, a, env);
  }

  lemma WrittenIsSolution(store: Store, ev: Evaluator, p: Pattern, c: nat, a: Assignment, env: Binding)
    requires Accepted(p) && Anchored(p) && Agrees(p, c, a) && Homomorphism(store, p, a, env)
    ensures |a.nodes| == |p.hops| + 1 && |a.preds| == |p.hops|
    ensures Solution(store, ev, Lowered(p, c), Written(p, c, a, |p.hops|))
    ensures Restrict(Written(p, c, a, |p.hops|), UserVars(p, |p.hops|)) == env
  {
    hide Agrees, Homomorphism, PatternTriples, PatternPaths, Slots, UserVars, Written, Accepted, BaseHolds, Solution;
    WrittenHolds(store, p, c, a, env);
    PatternVars(p, c, |p.hops|);
    BaseComplete(store, ev, PatternTriples(p, c, |p.hops|), PatternPaths(p, c, |p.hops|), Written(p, c, a, |p.hops|));
  }

  lemma HomomorphismShape(store: Store, p: Pattern, a: Assignment, env: Binding)
    requires Homomorphism(store, p, a, env)
    ensures |a.nodes| == |p.hops| + 1 && |a.preds| == |p.hops|
  {
  }

  /** Whatever the names are: what is found is what some assignment matches whose values
      agree wherever variables are shared. */
  lemma FoundIffAgrees(store: Store, ev: Evaluator, p: Pattern, c: nat, env: Binding)
    requires Accepted(p) && Anchored(p)
    ensures Found(store, ev, p, c, env) <==> exists a :: Homomorphism(store, p, a, env) && Agrees(p, c, a)
  {
    hide Lowered, Homomorphism, Slots, UserVars, Accepted, Agrees, Solution, Written;
    if Found(store, ev, p, c, env) {
      var m :| Solution(store, ev, Lowered(p, c), m) && Restrict(m, UserVars(p, |p.hops|)) == env;
      ReadIsHomomorphism(store, ev, p, c, m);
      ReadAgrees(p, c, m);
    }
    if a :| Homomorphism(store, p, a, env) && Agrees(p, c, a) { WrittenIsSolution(store, ev, p, c, a, env); }
  }

  lemma MatchedIsFound(store: Store, ev: Evaluator, p: Pattern, c: nat, env: Binding)
    requires Accepted(p) && Anchored(p) && NoCollision(p, c) && Matched(store, p, env)
    ensures Found(store, ev, p, c, env)
  {
    hide Found, Homomorphism, Accepted, NoCollision, Agrees;
    var a :| Homomorphism(store, p, a, env);
    NoCollisionAgrees(store, p, c, a, env);
    FoundIffAgrees(store, ev, p, c, env);
  }

  /** Lowering preserves the meaning of a pattern of any length, on every store. */
  lemma LoweringPreservesMeaning(store: Store, ev: Evaluator, p: Pattern, c: nat, env: Binding)
    requires Accepted(p) && NoCollision(p, c) && Anchored(p)
    ensures Found(store, ev, p, c, env) <==> Matched(store, p, env)
  {
    hide *;
    if Found(store, ev, p, c, env) { FoundIsMatched(store, ev, p, c, env); }
    if Matched(store, p, env) { MatchedIsFound(store, ev, p, c, env); }
  }

  ghost predicate Preserved(store: Store, ev: Evaluator, p: Pattern, c: nat, env: Binding) {
    Found(store, ev, p, c, env) <==> Matched(store, p, env)
  }

  /** A lone node without labels or properties lowers to nothing at all: its name is
      never bound. That is the only pattern whose meaning is lost. */
  lemma PreservedIffAnchored(ev: Evaluator, p: Pattern, c: nat)
    requires Accepted(p) && NoCollision(p, c)
    ensures (forall store: Store, env: Binding :: Preserved(store, ev, p, c, env)) <==> Anchored(p)
  {
    if Anchored(p) {
      forall store: Store, env: Binding ensures Preserved(store, ev, p, c, env) { LoweringPreservesMeaning(store, ev, p, c, env); }
    } else {
      BareNodeLost(ev, p, c);
    }
  }

  lemma MatchNeedsTriple(store: Store, p: Pattern, a: Assignment, env: Binding)
    ensures Homomorphism(store, p, a, env) ==> store != iset{}
  {
    if Homomorphism(store, p, a, env) {
      assert NodeMatches(store, p, a, env, 0);
      var t :| t in store && (t.s == a.nodes[0] || t.o == a.nodes[0]);
    }
  }

  lemma BareNodeLost(ev: Evaluator, p: Pattern, c: nat)
    requires !Anchored(p)
    ensures exists store: Store, env: Binding :: !Preserved(store, ev, p, c, env)
  {
    assert PatternTriples(p, c, 0) == [] && Lowered(p, c) == Bgp([]);
    assert Solution(iset{}, ev, Lowered(p, c), map[]);
    match p.start.variable {
      case Some(name) =>
        var x := Iri("x");
        var store, env: Binding := iset{Triple(x, x, x)}, map[name := x];
        var a := Assignment([x], []);
        assert Triple(x, x, x) in store && IsNode(store, x) by { assert Triple(x, x, x).s == x; }
        assert NodeMatches(store, p, a, env, 0);
        assert Homomorphism(store, p, a, env);
        forall m | Solution(store, ev, Lowered(p, c), m) ensures Restrict(m, UserVars(p, 0)) != env {
          assert m == map[];
          assert name in env;
        }
        assert !Preserved(store, ev, p, c, env);
      case None =>
        var env: Binding := map[];
        assert Restrict(map[], UserVars(p, 0)) == env;
        assert Found(iset{}, ev, p, c, env);
        forall a ensures !Homomorphism(iset{}, p, a, env) { MatchNeedsTriple(iset{}, p, a, env); }
        assert !Preserved(iset{}, ev, p, c, env);
    }
  }

  const COLLIDING: Pattern := Pattern(NodePattern(Some("_node0"), [], []),
                                      [Hop(RelPattern(None, Some("KNOWS"), Right, None, []), NodePattern(None, [], []))])

  lemma CollidingNames()
    ensures NodeVarOf(COLLIDING, 0, 0) == "_node0" == NodeVarOf(COLLIDING, 0, 1) && "_node0" in UserVars(COLLIDING, 1)
  {
    assert Decimal(0) == "0" by { assert "0123456789"[0] == '0'; }
    assert "_" + "node" + "0" == "_node0";
    assert "_node0" in UserVars(COLLIDING, 0);
  }

  /** A user who calls a node `_node0` takes the name of the first anonymous node:
      the two ends of the edge become one. */
  lemma CollisionLosesMatches(ev: Evaluator)
    ensures Accepted(COLLIDING) && Anchored(COLLIDING) && !NoCollision(COLLIDING, 0)
    ensures
      var store := iset{Triple(Iri("a"), RelIri("KNOWS"), Iri("b"))};
      var env: Binding := map["_node0" := Iri("a")];
      Matched(store, COLLIDING, env) && !Found(store, ev, COLLIDING, 0, env)
  {
    var edge := Triple(Iri("a"), RelIri("KNOWS"), Iri("b"));
    var env: Binding := map["_node0" := Iri("a")];
    CollidingNames();
    CollidingMatch(iset{edge}, edge, env);
    forall m ensures !Solution(iset{edge}, ev, Lowered(COLLIDING, 0), m) {
      if Solution(iset{edge}, ev, Lowered(COLLIDING, 0), m) { CollidingIsLoop(iset{edge}, ev, m); assert false; }
    }
    assert !Found(iset{edge}, ev, COLLIDING, 0, env);
  }

  lemma CollidingMatch(store: Store, edge: Triple, env: Binding)
    requires edge == Triple(Iri("a"), RelIri("KNOWS"), Iri("b")) && edge in store && env == map["_node0" := Iri("a")]
    ensures Matched(store, COLLIDING, env)
  {
    hide RelIri, NodeVarOf;
    var a := Assignment([Iri("a"), Iri("b")], [RelIri("KNOWS")]);
    assert edge.s == Iri("a") && edge.o == Iri("b");
    assert IsNode(store, Iri("a")) && IsNode(store, Iri("b"));
    assert HopMatches(store, COLLIDING, a, env, 0);
    assert NodeMatches(store, COLLIDING, a, env, 0) && NodeMatches(store, COLLIDING, a, env, 1);
    assert UserVars(COLLIDING, 0) == {"_node0"};
    assert env.Keys == UserVars(COLLIDING, 1);
    assert Homomorphism(store, COLLIDING, a, env);
  }

  lemma CollidingIsLoop(store: Store, ev: Evaluator, m: Binding)
    requires Solution(store, ev, Lowered(COLLIDING, 0), m)
    ensures "_node0" in m && Triple(m["_node0"], RelIri("KNOWS"), m["_node0"]) in store
  {
    hide RelIri, Solution, BaseHolds, NodePart, HopPart, PatternTriples, PatternPaths, FreshName, UserVars;
    PatternVars(COLLIDING, 0, 1);
    BaseSound(store, ev, PatternTriples(COLLIDING, 0, 1), PatternPaths(COLLIDING, 0, 1), m);
    InParts(store, COLLIDING, 0, m, 1);
    SlotsHave(COLLIDING, 0, 1, 0);
    CollidingNames();
    assert HopPart(store, COLLIDING, 0, m, 0);
    LoopPart(store, m);
  }

  lemma LoopPart(store: Store, m: Binding)
    requires "_node0" in m && HopPart(store, COLLIDING, 0, m, 0)
    ensures Triple(m["_node0"], RelIri("KNOWS"), m["_node0"]) in store
  {
    hide RelIri, BaseHolds, NodeVarOf, RelVarOf;
    CollidingNames();
    HopPartHolds(store, m, COLLIDING.hops[0].rel, "_node0", "_node0", RelVarOf(COLLIDING, 0, 0));
  }
}
