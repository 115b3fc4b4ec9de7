/** How Cypher maps to SPARQL algebra: fresh names, the triples that stand for
    nodes, relationships and properties, expressions, queries and write clauses. */
module CypherMapping {
  import opened Options
  import opened CypherSyntax
  import opened Numerals
  import opened Sparql

  const LABEL_NS: string := "http://oxigraph-nova.dev/cypher/label/"
  const REL_NS: string := "http://oxigraph-nova.dev/cypher/rel/"
  const PROP_NS: string := "http://oxigraph-nova.dev/cypher/prop/"
  const RDF_TYPE: Node := Iri("http://www.w3.org/1999/02/22-rdf-syntax-ns#type")

  function LabelIri(name: string): Node { Iri(LABEL_NS + name) }

  function RelIri(relType: string): Node { Iri(REL_NS + relType) }

  function PropIri(key: string): Node { Iri(PROP_NS + key) }

  // ---- Fresh names ----

  function FreshName(prefix: string, n: nat): Var { "_" + prefix + Decimal(n) }

  lemma FreshNamesDiffer(prefix: string, m: nat, n: nat)
    requires FreshName(prefix, m) == FreshName(prefix, n)
    ensures m == n
  {
    assert FreshName(prefix, m)[1 + |prefix|..] == Decimal(m);
    assert FreshName(prefix, n)[1 + |prefix|..] == Decimal(n);
    DecimalInjective(m, n);
  }

  predicate EndsInLetter(prefix: string) { prefix != "" && !IsDigit(prefix[|prefix| - 1]) }

  /** Prefix and counter can be told from the name, unless a prefix ends in a digit. */
  lemma FreshNamesApart(a: string, m: nat, b: string, n: nat)
    requires EndsInLetter(a) && EndsInLetter(b)
    ensures FreshName(a, m) == FreshName(b, n) <==> a == b && m == n
  {
    if FreshName(a, m) == FreshName(b, n) {
      PrefixNoLonger(a, m, b, n);
      PrefixNoLonger(b, n, a, m);
      assert a == FreshName(a, m)[1..1 + |a|] == FreshName(b, n)[1..1 + |b|] == b;
      FreshNamesDiffer(a, m, n);
    }
  }

  lemma PrefixNoLonger(a: string, m: nat, b: string, n: nat)
    requires EndsInLetter(a) && FreshName(a, m) == FreshName(b, n)
    ensures |a| <= |b|
  {
    assert FreshName(a, m)[|a|] == a[|a| - 1] && |a| < |FreshName(a, m)|;
    DigitsFollow(b, n);
  }

  lemma DigitsFollow(prefix: string, n: nat)
    ensures forall i :: |prefix| < i < |FreshName(prefix, n)| ==> IsDigit(FreshName(prefix, n)[i])
  {
    DecimalReads(n);
    assert forall i :: |prefix| < i < |FreshName(prefix, n)| ==> FreshName(prefix, n)[i] == Decimal(n)[i - 1 - |prefix|];
  }

  /** One prefix of the second deletion does, and can meet one of the first. */
  lemma DigitPrefixClashes()
    ensures FreshName("del_p", 25) == FreshName("del_p2", 5)
  {
    assert Decimal(25) == Decimal(2) + [Digit(5)] && Decimal(2) == "2" && Decimal(5) == "5";
    assert "_" + "del_p" + "25" == "_" + "del_p2" + "5";
  }

  // ---- Triples emitted for a pattern ----

  function LabelTriple(v: Var, name: string): TriplePattern { TP(V(v), C(RDF_TYPE), C(LabelIri(name))) }

  function PropTriple(subject: TermPattern, kv: (string, Literal)): TriplePattern { TP(subject, C(PropIri(kv.0)), C(Value(kv.1))) }

  function LabelTriples(v: Var, labels: seq<string>): seq<TriplePattern> {
    if labels == [] then [] else LabelTriples(v, labels[..|labels| - 1]) + [LabelTriple(v, labels[|labels| - 1])]
  }

  function PropTriples(subject: TermPattern, props: seq<(string, Literal)>): seq<TriplePattern> {
    if props == [] then [] else PropTriples(subject, props[..|props| - 1]) + [PropTriple(subject, props[|props| - 1])]
  }

  function NodeTriples(v: Var, node: NodePattern): seq<TriplePattern> {
    LabelTriples(v, node.labels) + PropTriples(V(v), node.properties)
  }

  /** Subject and object of a hop; an undirected one is read left to right. */
  function Ends<T>(rel: RelPattern, from: T, to: T): (T, T) {
    if rel.direction.Left? then (to, from) else (from, to)
  }

  function PredicateOf(rel: RelPattern, v: Var): TermPattern {
    if rel.relType.Some? then C(RelIri(rel.relType.value)) else V(v)
  }

  function RelTriples(rel: RelPattern, from: Var, to: Var, v: Var): seq<TriplePattern> {
    if rel.varLength.Some? then []
    else
      var (s, o) := Ends(rel, from, to);
      [TP(V(s), PredicateOf(rel, v), V(o))] + PropTriples(Q(V(s), PredicateOf(rel, v), V(o)), rel.properties)
  }

  function RelPaths(rel: RelPattern, from: Var, to: Var): seq<GraphPattern> {
    if rel.varLength.Some? && rel.relType.Some? then
      var (s, o) := Ends(rel, from, to);
      [Path(s, rel.varLength.value.min == Some(0), RelIri(rel.relType.value), o)]
    else []
  }

  // ---- Which patterns are accepted ----

  /** Names SPARQL variables may have, over ASCII. */
  predicate IsVariableName(name: string) {
    name != "" && forall i :: 0 <= i < |name| ==>
      'a' <= name[i] <= 'z' || 'A' <= name[i] <= 'Z' || '0' <= name[i] <= '9' || name[i] == '_'
  }

  predicate NoNulls(props: seq<(string, Literal)>) { forall kv :: kv in props ==> !kv.1.Null? }

  predicate NodeAccepted(n: NodePattern) {
    (n.variable.Some? ==> IsVariableName(n.variable.value)) && NoNulls(n.properties)
  }

  /** A variable-length relationship must be anonymous, plain, of one type and unbounded. */
  predicate RelAccepted(r: RelPattern) {
    if r.varLength.Some? then
      && r.variable.None? && r.properties == [] && r.relType.Some? && r.varLength.value.max.None?
      && (r.varLength.value.min.None? || r.varLength.value.min.value <= 1)
    else
      (r.relType.None? && r.variable.Some? ==> IsVariableName(r.variable.value)) && NoNulls(r.properties)
  }

  predicate Accepted(p: Pattern) {
    NodeAccepted(p.start) && forall i :: 0 <= i < |p.hops| ==> NodeAccepted(p.hops[i].node) && RelAccepted(p.hops[i].rel)
  }

  // ---- Names for the parts of a pattern ----

  /** An untyped relationship of one step stands for its predicate. */
  predicate BindsPredicate(r: RelPattern) { r.varLength.None? && r.relType.None? }

  predicate TakesRelName(r: RelPattern) { r.variable.None? && BindsPredicate(r) }

  function Taken(anonymous: bool): nat { if anonymous then 1 else 0 }

  /** The counter once the start and `n` hops are lowered, counting from `c`. */
  function CounterAfter(p: Pattern, c: nat, n: nat): nat
    requires n <= |p.hops|
  {
    if n == 0 then c + Taken(p.start.variable.None?)
    else CounterAfter(p, c, n - 1) + Taken(p.hops[n - 1].node.variable.None?) + Taken(TakesRelName(p.hops[n - 1].rel))
  }

  function NodeStamp(p: Pattern, c: nat, i: nat): nat
    requires i <= |p.hops|
  {
    if i == 0 then c else CounterAfter(p, c, i - 1)
  }

  function RelStamp(p: Pattern, c: nat, i: nat): nat
    requires i < |p.hops|
  {
    CounterAfter(p, c, i) + Taken(p.hops[i].node.variable.None?)
  }

  /** A part keeps the name the user gave it, or gets a fresh one. */
  function NameOr(name: Option<string>, prefix: string, stamp: nat): Var {
    match name
    case Some(n) => n
    case None => FreshName(prefix, stamp)
  }

  function NodeVarOf(p: Pattern, c: nat, i: nat): Var
    requires i <= |p.hops|
  {
    NameOr(NodeAt(p, i).variable, "node", NodeStamp(p, c, i))
  }

  function RelVarOf(p: Pattern, c: nat, i: nat): Var
    requires i < |p.hops|
  {
    NameOr(p.hops[i].rel.variable, "rel", RelStamp(p, c, i))
  }

  function PatternTriples(p: Pattern, c: nat, n: nat): seq<TriplePattern>
    requires n <= |p.hops|
  {
    if n == 0 then NodeTriples(NodeVarOf(p, c, 0), p.start)
    else
      PatternTriples(p, c, n - 1) + NodeTriples(NodeVarOf(p, c, n), p.hops[n - 1].node)
      + RelTriples(p.hops[n - 1].rel, NodeVarOf(p, c, n - 1), NodeVarOf(p, c, n), RelVarOf(p, c, n - 1))
  }

  function PatternPaths(p: Pattern, c: nat, n: nat): seq<GraphPattern>
    requires n <= |p.hops|
  {
    if n == 0 then []
    else PatternPaths(p, c, n - 1) + RelPaths(p.hops[n - 1].rel, NodeVarOf(p, c, n - 1), NodeVarOf(p, c, n))
  }

  /** The basic graph pattern, joined with one path after another. */
  function Base(ts: seq<TriplePattern>, paths: seq<GraphPattern>): GraphPattern {
    if paths == [] then Bgp(ts) else Join(Base(ts, paths[..|paths| - 1]), paths[|paths| - 1])
  }

  // ---- What the names of a pattern refer to ----

  datatype RelBinding = ByVar(v: Var) | Const(node: Node)

  function NodeNames(p: Pattern, n: nat): set<string>
    requires n <= |p.hops|
  {
    (if n == 0 then {} else NodeNames(p, n - 1)) + match NodeAt(p, n).variable case Some(name) => {name} case None => {}
  }

  function BindRel(m: map<string, RelBinding>, rel: RelPattern, v: Var): map<string, RelBinding> {
    if rel.variable.None? then m
    else m[rel.variable.value := if rel.relType.Some? then Const(RelIri(rel.relType.value)) else ByVar(v)]
  }

  function BindEnds(m: map<string, (Var, Var)>, rel: RelPattern, from: Var, to: Var): map<string, (Var, Var)> {
    if rel.variable.None? then m else m[rel.variable.value := Ends(rel, from, to)]
  }

  /** A later relationship of the same name replaces an earlier one. */
  function RelBindings(p: Pattern, c: nat, n: nat): map<string, RelBinding>
    requires n <= |p.hops|
  {
    if n == 0 then map[] else BindRel(RelBindings(p, c, n - 1), p.hops[n - 1].rel, RelVarOf(p, c, n - 1))
  }

  function RelEnds(p: Pattern, c: nat, n: nat): map<string, (Var, Var)>
    requires n <= |p.hops|
  {
    if n == 0 then map[]
    else BindEnds(RelEnds(p, c, n - 1), p.hops[n - 1].rel, NodeVarOf(p, c, n - 1), NodeVarOf(p, c, n))
  }

  // ---- Expressions ----

  /** What names may be used: nodes of the pattern and its relationships. */
  datatype Scope = Scope(nodes: set<string>, rels: map<string, RelBinding>)

  datatype Key = Key(node: string, prop: string)

  function PropVar(k: Key): Var { k.node + "_" + k.prop }

  function ReadTriple(k: Key): TriplePattern { TP(V(k.node), C(PropIri(k.prop)), V(PropVar(k))) }

  /** Properties only of nodes, no chained access, no NULL, no unknown name. */
  predicate ExprAccepted(sc: Scope, e: Expr) {
    match e
    case Variable(name) => name in sc.nodes || name in sc.rels
    case Property(base, _) => base.Variable? && base.name in sc.nodes && base.name !in sc.rels
    case Lit(l) => !l.Null?
    case Binary(_, a, b) => ExprAccepted(sc, a) && ExprAccepted(sc, b)
    case Not(a) => ExprAccepted(sc, a)
    case Neg(a) => ExprAccepted(sc, a)
  }

  function VariableRef(sc: Scope, name: string): SExpr
    requires name in sc.nodes || name in sc.rels
  {
    if name in sc.nodes then EVar(name)
    else
      match sc.rels[name]
      case ByVar(v) => EVar(v)
      case Const(n) => EIri(n)
  }

  /** There is no inequality in the target; it is the negation of equality. */
  function LoweredBinary(op: BinOp, a: SExpr, b: SExpr): SExpr {
    if op.Ne? then ENot(EBin(Eq, a, b)) else EBin(op, a, b)
  }

  function LoweredExpr(sc: Scope, e: Expr): SExpr
    requires ExprAccepted(sc, e)
  {
    match e
    case Variable(name) => VariableRef(sc, name)
    case Property(base, prop) => EVar(PropVar(Key(base.name, prop)))
    case Lit(l) => ELit(l)
    case Binary(op, a, b) => LoweredBinary(op, LoweredExpr(sc, a), LoweredExpr(sc, b))
    case Not(a) => ENot(LoweredExpr(sc, a))
    case Neg(a) => ENeg(LoweredExpr(sc, a))
  }

  /** The properties an expression reads, left to right. */
  function Reads(e: Expr): seq<Key> {
    match e
    case Variable(_) => []
    case Property(base, prop) => if base.Variable? then [Key(base.name, prop)] else []
    case Lit(_) => []
    case Binary(_, a, b) => Reads(a) + Reads(b)
    case Not(a) => Reads(a)
    case Neg(a) => Reads(a)
  }

  function ToSet<T>(s: seq<T>): set<T> { set x | x in s }

  /** The reads that need a triple of their own: each only once. */
  function NewReads(seen: set<Key>, used: seq<Key>): seq<Key> {
    if used == [] then []
    else
      var front, last := NewReads(seen, used[..|used| - 1]), used[|used| - 1];
      if last in seen || last in used[..|used| - 1] then front else front + [last]
  }

  function ReadTriples(keys: seq<Key>): seq<TriplePattern> {
    if keys == [] then [] else ReadTriples(keys[..|keys| - 1]) + [ReadTriple(keys[|keys| - 1])]
  }

  lemma {:induction false} NewReadsOfConcat(seen: set<Key>, a: seq<Key>, b: seq<Key>)
    ensures NewReads(seen, a + b) == NewReads(seen, a) + NewReads(seen + ToSet(a), b)
    decreases |b|
  {
    if b == [] {
      assert a + b == a;
    } else {
      var front := b[..|b| - 1];
      assert (a + b)[..|a + b| - 1] == a + front;
      NewReadsOfConcat(seen, a, front);
      assert b[|b| - 1] in a + front <==> b[|b| - 1] in ToSet(a) || b[|b| - 1] in front;
    }
  }

  lemma {:induction false} ReadTriplesOfConcat(a: seq<Key>, b: seq<Key>)
    ensures ReadTriples(a + b) == ReadTriples(a) + ReadTriples(b)
    decreases |b|
  {
    if b == [] {
      assert a + b == a;
    } else {
      assert (a + b)[..|a + b| - 1] == a + b[..|b| - 1];
      ReadTriplesOfConcat(a, b[..|b| - 1]);
    }
  }

  lemma NoReads(seen: set<Key>)
    ensures ReadTriples(NewReads(seen, [])) == [] && ToSet<Key>([]) == {}
  {
  }

  lemma OneRead(seen: set<Key>, k: Key)
    ensures ReadTriples(NewReads(seen, [k])) == (if k in seen then [] else [ReadTriple(k)]) && ToSet([k]) == {k}
  {
    assert [k][..0] == [];
    assert NewReads(seen, [k][..0]) == [];
  }

  /** Lowering `a` and then `b` pushes what lowering both at once would. */
  lemma ReadsCompose(seen: set<Key>, a: seq<Key>, b: seq<Key>)
    ensures ReadTriples(NewReads(seen, a + b)) == ReadTriples(NewReads(seen, a)) + ReadTriples(NewReads(seen + ToSet(a), b))
    ensures seen + ToSet(a + b) == seen + ToSet(a) + ToSet(b)
  {
    NewReadsOfConcat(seen, a, b);
    ReadTriplesOfConcat(NewReads(seen, a), NewReads(seen + ToSet(a), b));
  }

  // ---- Read queries ----

  function ScopeOf(p: Pattern, c: nat): Scope { Scope(NodeNames(p, |p.hops|), RelBindings(p, c, |p.hops|)) }

  /** The column name: the alias, or one implied by a variable or a property. */
  function Column(item: ReturnItem): Option<string> {
    match item.alias
    case Some(a) => Some(a)
    case None =>
      match item.expr
      case Variable(v) => Some(v)
      case Property(base, prop) => if base.Variable? then Some(PropVar(Key(base.name, prop))) else None
      case _ => None
  }

  predicate ItemAccepted(sc: Scope, item: ReturnItem) {
    ExprAccepted(sc, item.expr) && Column(item).Some? && IsVariableName(Column(item).value)
  }

  predicate ItemsAccepted(sc: Scope, items: seq<ReturnItem>) { forall i :: 0 <= i < |items| ==> ItemAccepted(sc, items[i]) }

  predicate KeysAccepted(sc: Scope, keys: seq<OrderItem>) { forall i :: 0 <= i < |keys| ==> ExprAccepted(sc, keys[i].expr) }

  predicate WhereAccepted(sc: Scope, where_: Option<Expr>) { where_.Some? ==> ExprAccepted(sc, where_.value) }

  predicate QueryAccepted(q: Query) {
    && Accepted(q.pattern)
    && WhereAccepted(ScopeOf(q.pattern, 0), q.where_)
    && ItemsAccepted(ScopeOf(q.pattern, 0), q.items)
    && KeysAccepted(ScopeOf(q.pattern, 0), q.orderBy)
  }

  function Columns(items: seq<ReturnItem>): seq<Var>
    requires forall i :: 0 <= i < |items| ==> Column(items[i]).Some?
  {
    if items == [] then [] else Columns(items[..|items| - 1]) + [Column(items[|items| - 1]).value]
  }

  function WhereReads(where_: Option<Expr>): seq<Key> { match where_ case Some(e) => Reads(e) case None => [] }

  function ItemReads(items: seq<ReturnItem>): seq<Key> {
    if items == [] then [] else ItemReads(items[..|items| - 1]) + Reads(items[|items| - 1].expr)
  }

  function KeyReads(keys: seq<OrderItem>): seq<Key> {
    if keys == [] then [] else KeyReads(keys[..|keys| - 1]) + Reads(keys[|keys| - 1].expr)
  }

  function QueryReads(q: Query): seq<Key> { WhereReads(q.where_) + ItemReads(q.items) + KeyReads(q.orderBy) }

  /** The pattern and the WHERE, with a triple for each of `used`. */
  function Selection(p: Pattern, c: nat, where_: Option<Expr>, used: seq<Key>): GraphPattern
    requires WhereAccepted(ScopeOf(p, c), where_)
  {
    Filtered(ScopeOf(p, c), Base(PatternTriples(p, c, |p.hops|) + ReadTriples(NewReads({}, used)), PatternPaths(p, c, |p.hops|)), where_)
  }

  function Filtered(sc: Scope, gp: GraphPattern, where_: Option<Expr>): GraphPattern
    requires WhereAccepted(sc, where_)
  {
    match where_ case Some(e) => Filter(LoweredExpr(sc, e), gp) case None => gp
  }

  /** A column is computed unless it is a variable already called that. */
  predicate NeedsExtend(sc: Scope, item: ReturnItem)
    requires ItemAccepted(sc, item)
  {
    LoweredExpr(sc, item.expr) != EVar(Column(item).value)
  }

  /** The computed columns, in order. */
  function Extensions(sc: Scope, items: seq<ReturnItem>): seq<(Var, SExpr)>
    requires ItemsAccepted(sc, items)
  {
    if items == [] then []
    else
      var front, last := Extensions(sc, items[..|items| - 1]), items[|items| - 1];
      if NeedsExtend(sc, last) then front + [(Column(last).value, LoweredExpr(sc, last.expr))] else front
  }

  function ExtendAll(gp: GraphPattern, extensions: seq<(Var, SExpr)>): GraphPattern {
    if extensions == [] then gp
    else
      var last := extensions[|extensions| - 1];
      Extend(ExtendAll(gp, extensions[..|extensions| - 1]), last.0, last.1)
  }

  function LoweredKeys(sc: Scope, keys: seq<OrderItem>): seq<OrderKey>
    requires KeysAccepted(sc, keys)
  {
    if keys == [] then []
    else LoweredKeys(sc, keys[..|keys| - 1]) + [OrderKey(LoweredExpr(sc, keys[|keys| - 1].expr), keys[|keys| - 1].descending)]
  }

  function Ordered(gp: GraphPattern, keys: seq<OrderKey>): GraphPattern { if keys == [] then gp else OrderBy(gp, keys) }

  function Deduplicated(gp: GraphPattern, distinct: bool): GraphPattern { if distinct then Distinct(gp) else gp }

  function Sliced(gp: GraphPattern, skip: Option<nat>, limit: Option<nat>): GraphPattern {
    if skip.Some? || limit.Some? then Slice(gp, match skip case Some(n) => n case None => 0, limit) else gp
  }

  /** Order before projection, duplicates after it, slicing last. */
  function QueryPattern(q: Query): GraphPattern
    requires QueryAccepted(q)
  {
    var sc := ScopeOf(q.pattern, 0);
    var rows := ExtendAll(Selection(q.pattern, 0, q.where_, QueryReads(q)), Extensions(sc, q.items));
    Sliced(Deduplicated(Project(Ordered(rows, LoweredKeys(sc, q.orderBy)), Columns(q.items)), q.distinct), q.skip, q.limit)
  }

  // ---- Write statements ----

  /** What the MATCH and WHERE of a statement leave for its write clauses. */
  datatype MatchBase = MatchBase(scope: Scope, ends: map<string, (Var, Var)>, base: GraphPattern, counter: nat)

  predicate MatchAccepted(s: Statement) {
    match s.pattern
    case Some(p) => Accepted(p) && WhereAccepted(ScopeOf(p, 0), s.where_)
    case None => WhereAccepted(Scope({}, map[]), s.where_)
  }

  function MatchOf(s: Statement): MatchBase
    requires MatchAccepted(s)
  {
    match s.pattern
    case Some(p) =>
      MatchBase(ScopeOf(p, 0), RelEnds(p, 0, |p.hops|), Selection(p, 0, s.where_, WhereReads(s.where_)), CounterAfter(p, 0, |p.hops|))
    case None => MatchBase(Scope({}, map[]), map[], Filtered(Scope({}, map[]), Bgp([]), s.where_), 0)
  }

  function PropPattern(v: Var, prop: string, o: Var): TriplePattern { TP(V(v), C(PropIri(prop)), V(o)) }

  /** The base, with the property's present value where there is one. */
  function WithOld(base: GraphPattern, v: Var, prop: string, old_: Var): GraphPattern {
    LeftJoin(base, Bgp([PropPattern(v, prop, old_)]))
  }

  function SetPropertyOp(m: MatchBase, v: Var, prop: string, value: Expr, c: nat): Update
    requires ExprAccepted(m.scope, value)
  {
    var old_, new_ := FreshName("set_old", c), FreshName("set_val", c + 1);
    DeleteInsert([PropPattern(v, prop, old_)], [PropPattern(v, prop, new_)],
                 Extend(WithOld(m.base, v, prop, old_), new_, LoweredExpr(m.scope, value)))
  }

  function RemovePropertyOp(m: MatchBase, v: Var, prop: string, c: nat): Update {
    var old_ := FreshName("remove_old", c);
    DeleteInsert([PropPattern(v, prop, old_)], [], WithOld(m.base, v, prop, old_))
  }

  /** Every triple with the node as subject, then every one with it as object. */
  function SubjectSide(base: GraphPattern, v: Var, c: nat): Update {
    var t := TP(V(v), V(FreshName("del_p", c)), V(FreshName("del_o", c + 1)));
    DeleteInsert([t], [], Join(base, Bgp([t])))
  }

  function ObjectSide(base: GraphPattern, v: Var, c: nat): Update {
    var t := TP(V(FreshName("del_s", c + 2)), V(FreshName("del_p2", c + 3)), V(v));
    DeleteInsert([t], [], Join(base, Bgp([t])))
  }

  /** The one triple a relationship was matched from. */
  function DeleteEdgeOp(m: MatchBase, name: string): Update
    requires name in m.ends && name in m.scope.rels
  {
    var (s, o) := m.ends[name];
    DeleteInsert([TP(V(s), match m.scope.rels[name] case ByVar(v) => V(v) case Const(n) => C(n), V(o))], [], m.base)
  }

  /** A name is looked up as a relationship first. */
  predicate DeleteAccepted(m: MatchBase, names: seq<string>) {
    forall i :: 0 <= i < |names| ==> names[i] in m.ends || names[i] in m.scope.nodes
  }

  function DeleteCounter(m: MatchBase, names: seq<string>, c: nat): nat {
    if names == [] then c
    else DeleteCounter(m, names[..|names| - 1], c) + if names[|names| - 1] in m.ends then 0 else 4
  }

  function DeleteOps(m: MatchBase, names: seq<string>, c: nat): seq<Update>
    requires DeleteAccepted(m, names) && m.ends.Keys == m.scope.rels.Keys
  {
    if names == [] then []
    else
      var front, last := names[..|names| - 1], names[|names| - 1];
      var at := DeleteCounter(m, front, c);
      DeleteOps(m, front, c)
      + if last in m.ends then [DeleteEdgeOp(m, last)] else [SubjectSide(m.base, last, at), ObjectSide(m.base, last, at)]
  }

  predicate WriteAccepted(m: MatchBase, w: WriteClause) {
    match w
    case SetProperty(v, _, value) => v in m.scope.nodes && ExprAccepted(m.scope, value)
    case SetLabel(v, _) => v in m.scope.nodes
    case Delete(names, _) => DeleteAccepted(m, names)
    case RemoveProperty(v, _) => v in m.scope.nodes
    case RemoveLabel(v, _) => v in m.scope.nodes
  }

  function CounterAfterWrite(m: MatchBase, w: WriteClause, c: nat): nat {
    match w
    case SetProperty(_, _, _) => c + 2
    case SetLabel(_, _) => c
    case Delete(names, _) => DeleteCounter(m, names, c)
    case RemoveProperty(_, _) => c + 1
    case RemoveLabel(_, _) => c
  }

  function WriteOps(m: MatchBase, w: WriteClause, c: nat): seq<Update>
    requires WriteAccepted(m, w) && m.ends.Keys == m.scope.rels.Keys
  {
    match w
    case SetProperty(v, prop, value) => [SetPropertyOp(m, v, prop, value, c)]
    case SetLabel(v, name) => [DeleteInsert([], [LabelTriple(v, name)], m.base)]
    case Delete(names, _) => DeleteOps(m, names, c)
    case RemoveProperty(v, prop) => [RemovePropertyOp(m, v, prop, c)]
    case RemoveLabel(v, name) => [DeleteInsert([LabelTriple(v, name)], [], m.base)]
  }

  predicate WritesAccepted(m: MatchBase, ws: seq<WriteClause>) { forall i :: 0 <= i < |ws| ==> WriteAccepted(m, ws[i]) }

  function CounterAfterWrites(m: MatchBase, ws: seq<WriteClause>): nat {
    if ws == [] then m.counter else CounterAfterWrite(m, ws[|ws| - 1], CounterAfterWrites(m, ws[..|ws| - 1]))
  }

  /** The operations of each clause, in the order the clauses are written. */
  function WritesOps(m: MatchBase, ws: seq<WriteClause>): seq<Update>
    requires WritesAccepted(m, ws) && m.ends.Keys == m.scope.rels.Keys
  {
    if ws == [] then []
    else
      var front := ws[..|ws| - 1];
      WritesOps(m, front) + WriteOps(m, ws[|ws| - 1], CounterAfterWrites(m, front))
  }

  lemma {:induction false} EndsAndBindings(p: Pattern, c: nat, n: nat)
    requires n <= |p.hops|
    ensures RelEnds(p, c, n).Keys == RelBindings(p, c, n).Keys
    decreases n
  {
    if n > 0 { EndsAndBindings(p, c, n - 1); }
  }

  predicate StatementAccepted(s: Statement) { MatchAccepted(s) && WritesAccepted(MatchOf(s), s.writes) }

  lemma MatchEnds(s: Statement)
    requires MatchAccepted(s)
    ensures MatchOf(s).ends.Keys == MatchOf(s).scope.rels.Keys
  {
    if s.pattern.Some? { EndsAndBindings(s.pattern.value, 0, |s.pattern.value.hops|); }
  }

  function StatementOps(s: Statement): seq<Update>
    requires StatementAccepted(s)
  {
    MatchEnds(s);
    WritesOps(MatchOf(s), s.writes)
  }

  // ---- What the methods rely on ----

  lemma FilteredIs(sc: Scope, gp: GraphPattern, where_: Option<Expr>)
    requires WhereAccepted(sc, where_)
    ensures Filtered(sc, gp, where_) == if where_.Some? then Filter(LoweredExpr(sc, where_.value), gp) else gp
  {
  }

  /** WHERE, RETURN and ORDER BY push, one after the other, what the query reads. */
  lemma QueryTriples(q: Query)
    ensures ReadTriples(NewReads({}, QueryReads(q)))
            == ReadTriples(NewReads({}, WhereReads(q.where_))) + ReadTriples(NewReads({} + ToSet(WhereReads(q.where_)), ItemReads(q.items)))
               + ReadTriples(NewReads({} + ToSet(WhereReads(q.where_)) + ToSet(ItemReads(q.items)), KeyReads(q.orderBy)))
  {
    ReadsCompose({}, WhereReads(q.where_) + ItemReads(q.items), KeyReads(q.orderBy));
    ReadsCompose({}, WhereReads(q.where_), ItemReads(q.items));
  }

  lemma {:induction false} ClosedReadsNothing(e: Expr)
    requires ExprAccepted(Scope({}, map[]), e)
    ensures Reads(e) == []
    decreases e
  {
    match e
    case Variable(_) =>
    case Property(_, _) =>
    case Lit(_) =>
    case Binary(_, a, b) => ClosedReadsNothing(a); ClosedReadsNothing(b);
    case Not(a) => ClosedReadsNothing(a);
    case Neg(a) => ClosedReadsNothing(a);
  }

  lemma NoNamesNoReads(where_: Option<Expr>)
    requires WhereAccepted(Scope({}, map[]), where_)
    ensures ReadTriples(NewReads({}, WhereReads(where_))) == []
  {
    if where_.Some? { ClosedReadsNothing(where_.value); }
  }
}
