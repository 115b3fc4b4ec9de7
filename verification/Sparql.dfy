/** The fragment of SPARQL algebra that Cypher is lowered to, and what it means:
    section 18 of SPARQL 1.1 Query Language and section 3.1.3 of SPARQL 1.1 Update,
    read over sets of solutions. */
module Sparql {
  import opened Options
  import opened CypherSyntax

  datatype Node =
    | Iri(text: string)
    | Blank(name: string)
    | Value(literal: Literal)
    | Quoted(s: Node, p: Node, o: Node)

  datatype Triple = Triple(s: Node, p: Node, o: Node)

  /** Any set of triples. */
  type Store = iset<Triple>

  type Var = string

  datatype TermPattern =
    | V(name: Var)
    | C(node: Node)
    | Q(s: TermPattern, p: TermPattern, o: TermPattern)

  datatype TriplePattern = TP(s: TermPattern, p: TermPattern, o: TermPattern)

  datatype SExpr =
    | EVar(v: Var)
    | ELit(literal: Literal)
    | EIri(node: Node)
    | EBin(op: BinOp, a: SExpr, b: SExpr)
    | ENot(a: SExpr)
    | ENeg(a: SExpr)

  datatype OrderKey = OrderKey(expr: SExpr, descending: bool)

  datatype GraphPattern =
    | Bgp(ts: seq<TriplePattern>)
    | Path(s: Var, zeroOk: bool, p: Node, o: Var)
    | Join(left: GraphPattern, right: GraphPattern)
    | LeftJoin(left: GraphPattern, right: GraphPattern)
    | Filter(expr: SExpr, inner: GraphPattern)
    | Extend(inner: GraphPattern, v: Var, expr: SExpr)
    | OrderBy(inner: GraphPattern, keys: seq<OrderKey>)
    | Project(inner: GraphPattern, vars: seq<Var>)
    | Distinct(inner: GraphPattern)
    | Slice(inner: GraphPattern, start: nat, length: Option<nat>)

  // ---- Variables ----

  function TermVars(t: TermPattern): set<Var> {
    match t
    case V(v) => {v}
    case C(_) => {}
    case Q(s, p, o) => TermVars(s) + TermVars(p) + TermVars(o)
  }

  function TripleVars(t: TriplePattern): set<Var> { TermVars(t.s) + TermVars(t.p) + TermVars(t.o) }

  function AllVars(ts: seq<TriplePattern>): set<Var> {
    if ts == [] then {} else AllVars(ts[..|ts| - 1]) + TripleVars(ts[|ts| - 1])
  }

  lemma {:induction false} AllVarsOfConcat(a: seq<TriplePattern>, b: seq<TriplePattern>)
    ensures AllVars(a + b) == AllVars(a) + AllVars(b)
    decreases |b|
  {
    if b == [] {
      assert a + b == a;
    } else {
      assert (a + b)[..|a + b| - 1] == a + b[..|b| - 1];
      AllVarsOfConcat(a, b[..|b| - 1]);
    }
  }

  lemma {:induction false} VarsOfMember(ts: seq<TriplePattern>, i: nat)
    requires i < |ts|
    ensures TripleVars(ts[i]) <= AllVars(ts)
    decreases |ts|
  {
    if i < |ts| - 1 { VarsOfMember(ts[..|ts| - 1], i); }
  }

  function ExprVars(e: SExpr): set<Var> {
    match e
    case EVar(v) => {v}
    case ELit(_) => {}
    case EIri(_) => {}
    case EBin(_, a, b) => ExprVars(a) + ExprVars(b)
    case ENot(a) => ExprVars(a)
    case ENeg(a) => ExprVars(a)
  }

  // ---- Solutions ----

  type Binding = map<Var, Node>

  /** How expressions evaluate is left open; nothing when there is an error. */
  type Evaluator = (SExpr, Binding) -> Option<Node>

  function Inst(t: TermPattern, m: Binding): Node
    requires TermVars(t) <= m.Keys
  {
    match t
    case V(v) => m[v]
    case C(n) => n
    case Q(s, p, o) => Quoted(Inst(s, m), Inst(p, m), Inst(o, m))
  }

  function InstTriple(t: TriplePattern, m: Binding): Triple
    requires TripleVars(t) <= m.Keys
  {
    Triple(Inst(t.s, m), Inst(t.p, m), Inst(t.o, m))
  }

  ghost predicate Compatible(a: Binding, b: Binding) {
    forall v :: v in a && v in b ==> a[v] == b[v]
  }

  function Restrict(m: Binding, names: set<Var>): Binding { map v | v in m && v in names :: m[v] }

  ghost predicate Walk(store: Store, p: Node, n: nat, x: Node, y: Node) {
    if n == 0 then x == y else exists z :: Triple(x, p, z) in store && Walk(store, p, n - 1, z, y)
  }

  /** Subjects and objects of a store. */
  ghost predicate IsNode(store: Store, x: Node) {
    exists t :: t in store && (t.s == x || t.o == x)
  }

  /** One or more steps, or none at all between a node of the store and itself. */
  ghost predicate PathHolds(store: Store, zeroOk: bool, p: Node, x: Node, y: Node) {
    (zeroOk && x == y && IsNode(store, x)) || exists n: nat :: n > 0 && Walk(store, p, n, x, y)
  }

  ghost predicate Matches(store: Store, t: TriplePattern, m: Binding) {
    TripleVars(t) <= m.Keys && InstTriple(t, m) in store
  }

  /** Ordering, projection, duplicates and slices are about sequences: see `Rows`. */
  ghost predicate Solution(store: Store, ev: Evaluator, gp: GraphPattern, m: Binding)
    decreases gp
  {
    match gp
    case Bgp(ts) => m.Keys == AllVars(ts) && forall t :: t in ts ==> Matches(store, t, m)
    case Path(s, zeroOk, p, o) => m.Keys == {s, o} && PathHolds(store, zeroOk, p, m[s], m[o])
    case Join(l, r) => exists a, b :: Solution(store, ev, l, a) && Solution(store, ev, r, b) && Compatible(a, b) && m == a + b
    case LeftJoin(l, r) =>
      || (exists a, b :: Solution(store, ev, l, a) && Solution(store, ev, r, b) && Compatible(a, b) && m == a + b)
      || (Solution(store, ev, l, m) && forall b :: Solution(store, ev, r, b) ==> !Compatible(m, b))
    case Filter(e, inner) => Solution(store, ev, inner, m) && ev(e, m) == Some(Value(Bool(true)))
    case Extend(inner, v, e) =>
      exists a :: Solution(store, ev, inner, a) && m == if ev(e, a).Some? then a[v := ev(e, a).value] else a
    case _ => false
  }

  // ---- Sequences of solutions ----

  /** How values are ordered, unbound ones included; nothing is asked of it. */
  type Less = (Option<Node>, Option<Node>) -> bool

  /** Does `x` come before `y` by the keys from the `i`th on, the first ones deciding? */
  predicate Precedes(ev: Evaluator, less: Less, keys: seq<OrderKey>, i: nat, x: Binding, y: Binding)
    decreases |keys| - i
  {
    i < |keys| &&
    var a, b := ev(keys[i].expr, x), ev(keys[i].expr, y);
    if less(a, b) || less(b, a) then (if keys[i].descending then less(b, a) else less(a, b))
    else Precedes(ev, less, keys, i + 1, x, y)
  }

  predicate ByKeys(ev: Evaluator, less: Less, keys: seq<OrderKey>, rows: seq<Binding>) {
    forall i, j :: 0 <= i < j < |rows| ==> !Precedes(ev, less, keys, 0, rows[j], rows[i])
  }

  predicate Rearranged(xs: seq<Binding>, ys: seq<Binding>) { multiset(xs) == multiset(ys) }

  function ExtendRow(ev: Evaluator, row: Binding, v: Var, e: SExpr): Binding {
    if ev(e, row).Some? then row[v := ev(e, row).value] else row
  }

  function ExtendRows(ev: Evaluator, rows: seq<Binding>, v: Var, e: SExpr): seq<Binding> {
    seq(|rows|, i requires 0 <= i < |rows| => ExtendRow(ev, rows[i], v, e))
  }

  function ProjectRows(rows: seq<Binding>, names: set<Var>): seq<Binding> { seq(|rows|, i requires 0 <= i < |rows| => Restrict(rows[i], names)) }

  predicate NoRepeats<T(==)>(xs: seq<T>) { forall i, j :: 0 <= i < j < |xs| ==> xs[i] != xs[j] }

  /** What is left when every element stays where it occurs first. */
  function FirstOnes(xs: seq<Binding>): seq<Binding> {
    if xs == [] then []
    else
      var front, last := xs[..|xs| - 1], xs[|xs| - 1];
      if last in front then FirstOnes(front) else FirstOnes(front) + [last]
  }

  predicate Distincts(xs: seq<Binding>, ys: seq<Binding>) { ys == FirstOnes(xs) }

  function Clip<T>(xs: seq<T>, start: nat, length: Option<nat>): seq<T> {
    var rest := if start <= |xs| then xs[start..] else [];
    if length.Some? && length.value <= |rest| then rest[..length.value] else rest
  }

  /** `rows` is a sequence the pattern may give. What a match pattern gives comes in any
      order, each solution once. */
  ghost predicate Rows(store: Store, ev: Evaluator, less: Less, gp: GraphPattern, rows: seq<Binding>)
    decreases gp
  {
    match gp
    case Extend(inner, v, e) => exists r :: Rows(store, ev, less, inner, r) && rows == ExtendRows(ev, r, v, e)
    case OrderBy(inner, keys) =>
      ByKeys(ev, less, keys, rows) && exists r :: Rows(store, ev, less, inner, r) && Rearranged(r, rows)
    case Project(inner, vars) => exists r :: Rows(store, ev, less, inner, r) && rows == ProjectRows(r, set v | v in vars)
    case Distinct(inner) => exists r :: Rows(store, ev, less, inner, r) && Distincts(r, rows)
    case Slice(inner, start, length) => exists r :: Rows(store, ev, less, inner, r) && rows == Clip(r, start, length)
    case _ => NoRepeats(rows) && forall m :: m in rows <==> Solution(store, ev, gp, m)
  }

  // ---- Monotone patterns ----

  /** Built from triple patterns, paths, joins and filters only: what a MATCH with a
      WHERE lowers to. */
  predicate IsMatch(gp: GraphPattern) {
    match gp
    case Bgp(_) => true
    case Path(_, _, _, _) => true
    case Join(l, r) => IsMatch(l) && IsMatch(r)
    case Filter(_, inner) => IsMatch(inner)
    case _ => false
  }

  function MatchVars(gp: GraphPattern): set<Var>
    requires IsMatch(gp)
  {
    match gp
    case Bgp(ts) => AllVars(ts)
    case Path(s, _, _, o) => {s, o}
    case Join(l, r) => MatchVars(l) + MatchVars(r)
    case Filter(_, inner) => MatchVars(inner)
  }

  lemma {:induction false} SolutionBindsAll(store: Store, ev: Evaluator, gp: GraphPattern, m: Binding)
    requires IsMatch(gp) && Solution(store, ev, gp, m)
    ensures m.Keys == MatchVars(gp)
    decreases gp
  {
    match gp
    case Bgp(_) =>
    case Path(_, _, _, _) =>
    case Join(l, r) =>
      var a, b :| Solution(store, ev, l, a) && Solution(store, ev, r, b) && Compatible(a, b) && m == a + b;
      SolutionBindsAll(store, ev, l, a);
      SolutionBindsAll(store, ev, r, b);
    case Filter(_, inner) => SolutionBindsAll(store, ev, inner, m);
  }

  lemma {:induction false} WalkMonotone(small: Store, big: Store, p: Node, n: nat, x: Node, y: Node)
    requires small <= big && Walk(small, p, n, x, y)
    ensures Walk(big, p, n, x, y)
    decreases n
  {
    if n > 0 {
      var z :| Triple(x, p, z) in small && Walk(small, p, n - 1, z, y);
      WalkMonotone(small, big, p, n - 1, z, y);
    }
  }

  /** A match found in part of a store is found in all of it. */
  lemma {:induction false} MatchMonotone(small: Store, big: Store, ev: Evaluator, gp: GraphPattern, m: Binding)
    requires small <= big && IsMatch(gp) && Solution(small, ev, gp, m)
    ensures Solution(big, ev, gp, m)
    decreases gp
  {
    match gp
    case Bgp(ts) => forall t | t in ts ensures Matches(big, t, m) { assert Matches(small, t, m); }
    case Path(s, zeroOk, p, o) =>
      if n: nat :| n > 0 && Walk(small, p, n, m[s], m[o]) { WalkMonotone(small, big, p, n, m[s], m[o]); }
    case Join(l, r) =>
      var a, b :| Solution(small, ev, l, a) && Solution(small, ev, r, b) && Compatible(a, b) && m == a + b;
      MatchMonotone(small, big, ev, l, a);
      MatchMonotone(small, big, ev, r, b);
    case Filter(_, inner) => MatchMonotone(small, big, ev, inner, m);
  }

  // ---- Updates ----

  datatype Update = DeleteInsert(delete: seq<TriplePattern>, insert: seq<TriplePattern>, pattern: GraphPattern)

  /** Some solution instantiates a delete template to `t`; templates with an unbound
      variable are skipped. */
  ghost predicate Deleted(store: Store, ev: Evaluator, op: Update, t: Triple) {
    exists m, d :: Solution(store, ev, op.pattern, m) && Produces(op.delete, d, m, t)
  }

  /** A literal cannot be a subject; such triples are not inserted. */
  predicate Legal(t: Triple) { !t.s.Value? && t.p.Iri? }

  ghost predicate Inserted(store: Store, ev: Evaluator, op: Update, t: Triple) {
    Legal(t) && exists m, d :: Solution(store, ev, op.pattern, m) && Produces(op.insert, d, m, t)
  }

  /** Both parts use the solutions found before; what is inserted stays. */
  ghost predicate InAfter(store: Store, ev: Evaluator, op: Update, t: Triple) {
    (t in store && !Deleted(store, ev, op, t)) || Inserted(store, ev, op, t)
  }

  ghost predicate Produces(templates: seq<TriplePattern>, d: TriplePattern, m: Binding, t: Triple) {
    d in templates && TripleVars(d) <= m.Keys && InstTriple(d, m) == t
  }

  /** The store once an operation is done. */
  ghost function After(store: Store, ev: Evaluator, op: Update): Store { iset t | InAfter(store, ev, op, t) }

  /** Operations of one request run one after the other. */
  ghost function AfterOps(store: Store, ev: Evaluator, ops: seq<Update>): Store {
    if ops == [] then store else AfterOps(After(store, ev, ops[0]), ev, ops[1..])
  }

  lemma {:induction false} AfterOpsOfConcat(store: Store, ev: Evaluator, first: seq<Update>, rest: seq<Update>)
    ensures AfterOps(store, ev, first + rest) == AfterOps(AfterOps(store, ev, first), ev, rest)
    decreases |first|
  {
    hide After;
    if first == [] { assert first + rest == rest; }
    else {
      assert (first + rest)[0] == first[0] && (first + rest)[1..] == first[1..] + rest;
      AfterOpsOfConcat(After(store, ev, first[0]), ev, first[1..], rest);
    }
  }

  /** What is left after an operation that only deletes: all solutions are found first. */
  ghost function AfterDelete(store: Store, ev: Evaluator, op: Update): Store {
    iset t | t in store && !Deleted(store, ev, op, t)
  }

  ghost function AfterDeletes(store: Store, ev: Evaluator, ops: seq<Update>): Store {
    if ops == [] then store else AfterDeletes(AfterDelete(store, ev, ops[0]), ev, ops[1..])
  }

  /** Nothing else is to be done for operations that insert nothing. */
  lemma {:induction false} DeletesOnly(store: Store, ev: Evaluator, ops: seq<Update>)
    requires forall op :: op in ops ==> op.insert == []
    ensures AfterOps(store, ev, ops) == AfterDeletes(store, ev, ops)
    decreases |ops|
  {
    hide Deleted;
    if ops != [] {
      assert ops[0] in ops;
      forall t: Triple ensures !Inserted(store, ev, ops[0], t) {}
      assert After(store, ev, ops[0]) == AfterDelete(store, ev, ops[0]);
      DeletesOnly(After(store, ev, ops[0]), ev, ops[1..]);
    }
  }
}
