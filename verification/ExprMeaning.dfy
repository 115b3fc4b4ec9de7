/** What Cypher expressions mean on a match, and that lowering keeps it. */
module ExprMeaning {
  import opened Options
  import opened CypherSyntax
  import opened Sparql
  import opened CypherMapping
  import opened MatchMeaning

  /** What the operators do, in either language; nothing stands for an error. */
  datatype Operators = Operators(
    binary: (BinOp, Option<Node>, Option<Node>) -> Option<Node>,
    not: Option<Node> -> Option<Node>,
    minus: Option<Node> -> Option<Node>)

  /** Inequality is the negation of equality, errors included. */
  ghost predicate NeNegatesEq(ops: Operators) {
    forall x, y :: ops.binary(Ne, x, y) == ops.not(ops.binary(Eq, x, y))
  }

  // ---- SPARQL ----

  function SparqlValue(ops: Operators, e: SExpr, m: Binding): Option<Node> {
    match e
    case EVar(v) => if v in m then Some(m[v]) else None
    case ELit(l) => Some(Value(l))
    case EIri(n) => Some(n)
    case EBin(op, a, b) => ops.binary(op, SparqlValue(ops, a, m), SparqlValue(ops, b, m))
    case ENot(a) => ops.not(SparqlValue(ops, a, m))
    case ENeg(a) => ops.minus(SparqlValue(ops, a, m))
  }

  /** The evaluator computes values by these operators. */
  ghost predicate Evaluates(ev: Evaluator, ops: Operators) {
    NeNegatesEq(ops) && forall e: SExpr, m: Binding :: ev(e, m) == SparqlValue(ops, e, m)
  }

  ghost predicate SameOn(vars: set<Var>, a: Binding, b: Binding) {
    forall v :: v in vars ==> (v in a <==> v in b) && (v in a ==> a[v] == b[v])
  }

  /** The value of an expression depends on its own variables only. */
  ghost predicate Local(ev: Evaluator) {
    forall e: SExpr, a: Binding, b: Binding :: SameOn(ExprVars(e), a, b) ==> ev(e, a) == ev(e, b)
  }

  lemma {:induction false} SparqlValueIsLocal(ops: Operators, e: SExpr, a: Binding, b: Binding)
    requires SameOn(ExprVars(e), a, b)
    ensures SparqlValue(ops, e, a) == SparqlValue(ops, e, b)
    decreases e
  {
    match e
    case EVar(v) => assert v in ExprVars(e);
    case ELit(_) =>
    case EIri(_) =>
    case EBin(_, x, y) => SparqlValueIsLocal(ops, x, a, b); SparqlValueIsLocal(ops, y, a, b);
    case ENot(x) => SparqlValueIsLocal(ops, x, a, b);
    case ENeg(x) => SparqlValueIsLocal(ops, x, a, b);
  }

  lemma EvaluatesIsLocal(ev: Evaluator, ops: Operators)
    requires Evaluates(ev, ops)
    ensures Local(ev)
  {
    hide SparqlValue, ExprVars, SameOn, NeNegatesEq;
    forall e: SExpr, a: Binding, b: Binding | SameOn(ExprVars(e), a, b) ensures ev(e, a) == ev(e, b) { SparqlValueIsLocal(ops, e, a, b); }
  }

  // ---- Cypher ----

  /** The value a match takes for each property read. */
  type Values = map<Key, Node>

  predicate Shaped(p: Pattern, a: Assignment) { |a.nodes| == |p.hops| + 1 && |a.preds| == |p.hops| }

  /** The node a name stands for; a name given twice stands for one node. */
  function NodeNamed(p: Pattern, a: Assignment, n: nat, name: string): Option<Node>
    requires Shaped(p, a) && n <= |p.hops|
  {
    if NodeAt(p, n).variable == Some(name) then Some(a.nodes[n]) else if n == 0 then None else NodeNamed(p, a, n - 1, name)
  }

  /** A relationship stands for its type, the last one of a name for the name. */
  function TypeNamed(p: Pattern, a: Assignment, n: nat, name: string): Option<Node>
    requires Shaped(p, a) && n <= |p.hops|
  {
    if n == 0 then None
    else if p.hops[n - 1].rel.variable == Some(name) then Some(a.preds[n - 1])
    else TypeNamed(p, a, n - 1, name)
  }

  function NameValue(p: Pattern, a: Assignment, name: string): Option<Node>
    requires Shaped(p, a)
  {
    match NodeNamed(p, a, |p.hops|, name)
    case Some(x) => Some(x)
    case None => TypeNamed(p, a, |p.hops|, name)
  }

  /** A name means its part of the match, a property the value read for it. */
  function CypherValue(ops: Operators, p: Pattern, a: Assignment, vals: Values, e: Expr): Option<Node>
    requires Shaped(p, a)
  {
    match e
    case Variable(name) => NameValue(p, a, name)
    case Property(base, prop) =>
      if base.Variable? && Key(base.name, prop) in vals then Some(vals[Key(base.name, prop)]) else None
    case Lit(l) => if l.Null? then None else Some(Value(l))
    case Binary(op, x, y) => ops.binary(op, CypherValue(ops, p, a, vals, x), CypherValue(ops, p, a, vals, y))
    case Not(x) => ops.not(CypherValue(ops, p, a, vals, x))
    case Neg(x) => ops.minus(CypherValue(ops, p, a, vals, x))
  }

  // ---- Both ----

  /** The binding gives every part of the pattern and every property read its value. */
  ghost predicate ReadsAs(p: Pattern, m: Binding, a: Assignment, vals: Values) {
    && Shaped(p, a)
    && (forall i: nat :: i <= |p.hops| ==> NodeVarOf(p, 0, i) in m && m[NodeVarOf(p, 0, i)] == a.nodes[i])
    && (forall i: nat :: i < |p.hops| ==> TypeReadsAs(p, m, a, i))
    && (forall k :: k in vals ==> PropVar(k) in m && m[PropVar(k)] == vals[k])
  }

  ghost predicate TypeReadsAs(p: Pattern, m: Binding, a: Assignment, i: nat)
    requires Shaped(p, a) && i < |p.hops|
  {
    var rel := p.hops[i].rel;
    && (BindsPredicate(rel) ==> RelVarOf(p, 0, i) in m && m[RelVarOf(p, 0, i)] == a.preds[i])
    && (rel.varLength.None? && rel.relType.Some? ==> a.preds[i] == RelIri(rel.relType.value))
  }

  lemma {:induction false} NodeNameMeans(p: Pattern, m: Binding, a: Assignment, vals: Values, n: nat, name: string)
    requires ReadsAs(p, m, a, vals) && n <= |p.hops|
    ensures NodeNamed(p, a, n, name).Some? <==> name in NodeNames(p, n)
    ensures name in NodeNames(p, n) ==> name in m && NodeNamed(p, a, n, name) == Some(m[name])
    decreases n
  {
    hide TypeReadsAs;
    assert NodeVarOf(p, 0, n) in m && m[NodeVarOf(p, 0, n)] == a.nodes[n];
    if n > 0 { NodeNameMeans(p, m, a, vals, n - 1, name); }
  }

  lemma {:induction false} TypeNameMeans(p: Pattern, m: Binding, a: Assignment, vals: Values, n: nat, name: string)
    requires Accepted(p) && ReadsAs(p, m, a, vals) && n <= |p.hops| && name in RelBindings(p, 0, n)
    ensures TypeNamed(p, a, n, name)
            == match RelBindings(p, 0, n)[name] case ByVar(v) => (if v in m then Some(m[v]) else None) case Const(x) => Some(x)
    decreases n
  {
    hide RelIri, FreshName, NodeAccepted;
    var k: nat := n - 1;
    assert TypeReadsAs(p, m, a, k) && RelAccepted(p.hops[k].rel);
    if p.hops[k].rel.variable != Some(name) { TypeNameMeans(p, m, a, vals, k, name); }
  }

  /** The lowered expression has, on such a binding, the value of the expression; what is
      not read is bound nowhere. */
  lemma {:induction false} ExprKeepsMeaning(ops: Operators, p: Pattern, m: Binding, a: Assignment, vals: Values, e: Expr)
    requires Accepted(p) && ExprAccepted(ScopeOf(p, 0), e) && NeNegatesEq(ops) && Shaped(p, a) && ReadsAs(p, m, a, vals)
    requires forall k :: k in Reads(e) ==> k in vals || PropVar(k) !in m
    ensures SparqlValue(ops, LoweredExpr(ScopeOf(p, 0), e), m) == CypherValue(ops, p, a, vals, e)
    decreases e
  {
    hide Accepted, ReadsAs, NodeNames, RelBindings, NodeNamed, TypeNamed, NeNegatesEq;
    match e
    case Variable(name) =>
      NodeNameMeans(p, m, a, vals, |p.hops|, name);
      if name !in NodeNames(p, |p.hops|) { TypeNameMeans(p, m, a, vals, |p.hops|, name); }
    case Property(base, prop) =>
      assert Key(base.name, prop) in Reads(e);
      if Key(base.name, prop) in vals { ReadMeans(p, m, a, vals, Key(base.name, prop)); }
    case Lit(_) =>
    case Binary(op, x, y) =>
      ExprKeepsMeaning(ops, p, m, a, vals, x);
      ExprKeepsMeaning(ops, p, m, a, vals, y);
      if op.Ne? { NeMeans(ops, CypherValue(ops, p, a, vals, x), CypherValue(ops, p, a, vals, y)); }
    case Not(x) => ExprKeepsMeaning(ops, p, m, a, vals, x);
    case Neg(x) => ExprKeepsMeaning(ops, p, m, a, vals, x);
  }

  lemma NeMeans(ops: Operators, x: Option<Node>, y: Option<Node>)
    requires NeNegatesEq(ops)
    ensures ops.binary(Ne, x, y) == ops.not(ops.binary(Eq, x, y))
  {
  }

  lemma ReadMeans(p: Pattern, m: Binding, a: Assignment, vals: Values, k: Key)
    requires ReadsAs(p, m, a, vals) && k in vals
    ensures PropVar(k) in m && m[PropVar(k)] == vals[k]
  {
  }
}
