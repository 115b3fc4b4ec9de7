/** Scope safety: which lowered queries and operations use only variables that their
    pattern binds. */
module ScopeSafety {
  import opened Options
  import opened CypherSyntax
  import opened Sparql
  import opened CypherMapping
  import opened MatchMeaning

  function Vars(names: seq<Var>): set<Var> { set v | v in names }

  /** In-scope variables: section 18.2.1 of SPARQL 1.1 Query Language. */
  function InScope(gp: GraphPattern): set<Var> {
    match gp
    case Bgp(ts) => AllVars(ts)
    case Path(s, _, _, o) => {s, o}
    case Join(l, r) => InScope(l) + InScope(r)
    case LeftJoin(l, r) => InScope(l) + InScope(r)
    case Filter(_, inner) => InScope(inner)
    case Extend(inner, v, _) => InScope(inner) + {v}
    case OrderBy(inner, _) => InScope(inner)
    case Project(_, names) => Vars(names)
    case Distinct(inner) => InScope(inner)
    case Slice(inner, _, _) => InScope(inner)
  }

  /** Filters, extensions, orderings and projections use only what is in scope. */
  predicate WellScoped(gp: GraphPattern) {
    match gp
    case Bgp(_) => true
    case Path(_, _, _, _) => true
    case Join(l, r) => WellScoped(l) && WellScoped(r)
    case LeftJoin(l, r) => WellScoped(l) && WellScoped(r)
    case Filter(e, inner) => WellScoped(inner) && ExprVars(e) <= InScope(inner)
    case Extend(inner, _, e) => WellScoped(inner) && ExprVars(e) <= InScope(inner)
    case OrderBy(inner, keys) => WellScoped(inner) && KeyVars(keys) <= InScope(inner)
    case Project(inner, names) => WellScoped(inner) && Vars(names) <= InScope(inner)
    case Distinct(inner) => WellScoped(inner)
    case Slice(inner, _, _) => WellScoped(inner)
  }

  function KeyVars(keys: seq<OrderKey>): set<Var> {
    if keys == [] then {} else KeyVars(keys[..|keys| - 1]) + ExprVars(keys[|keys| - 1].expr)
  }

  // ---- What the base binds ----

  lemma {:induction false} BaseScope(ts: seq<TriplePattern>, paths: seq<GraphPattern>)
    requires AllPaths(paths)
    ensures InScope(Base(ts, paths)) == AllVars(ts) + PathVars(paths) && WellScoped(Base(ts, paths)) && IsMatch(Base(ts, paths))
    decreases |paths|
  {
    hide AllVars;
    if paths != [] {
      var last := paths[|paths| - 1];
      assert last in paths && last.Path? && InScope(last) == {last.s, last.o} && WellScoped(last) && IsMatch(last);
      BaseScope(ts, paths[..|paths| - 1]);
    }
  }

  function KeyNames(k: Key): set<Var> { {k.node, PropVar(k)} }

  function ReadVars(keys: seq<Key>): set<Var> {
    if keys == [] then {} else ReadVars(keys[..|keys| - 1]) + KeyNames(keys[|keys| - 1])
  }

  lemma {:induction false} ReadVarsAre(keys: seq<Key>, v: Var)
    ensures v in ReadVars(keys) <==> exists k :: k in keys && v in KeyNames(k)
    decreases |keys|
  {
    if keys != [] {
      ReadVarsAre(keys[..|keys| - 1], v);
      assert keys == keys[..|keys| - 1] + [keys[|keys| - 1]];
    }
  }

  lemma {:induction false} ReadTripleVars(keys: seq<Key>)
    ensures AllVars(ReadTriples(keys)) == ReadVars(keys)
    decreases |keys|
  {
    if keys != [] {
      ReadTripleVars(keys[..|keys| - 1]);
      var front := ReadTriples(keys[..|keys| - 1]);
      assert (front + [ReadTriple(keys[|keys| - 1])])[..|front|] == front;
    }
  }

  lemma {:induction false} NewReadsKeepAll(keys: seq<Key>)
    ensures ReadVars(NewReads({}, keys)) == ReadVars(keys)
    decreases |keys|
  {
    if keys != [] {
      var rest, last := keys[..|keys| - 1], keys[|keys| - 1];
      NewReadsKeepAll(rest);
      if last in rest {
        forall v | v in KeyNames(last) ensures v in ReadVars(rest) { ReadVarsAre(rest, v); }
      } else {
        var front := NewReads({}, rest);
        assert (front + [last])[..|front|] == front;
      }
    }
  }

  /** The variables the pattern itself binds. */
  function PatternScope(p: Pattern): set<Var> { if Anchored(p) then Slots(p, 0, |p.hops|) else {} }

  lemma SelectionScope(p: Pattern, where_: Option<Expr>, keys: seq<Key>)
    requires Accepted(p) && WhereAccepted(ScopeOf(p, 0), where_)
    ensures InScope(Selection(p, 0, where_, keys)) == PatternScope(p) + ReadVars(keys)
    ensures IsMatch(Selection(p, 0, where_, keys))
    ensures WellScoped(Selection(p, 0, where_, keys))
            <==> (where_.Some? ==> ExprVars(LoweredExpr(ScopeOf(p, 0), where_.value)) <= PatternScope(p) + ReadVars(keys))
  {
    hide PatternTriples, PatternPaths, NewReads, ReadTriples, Slots, ReadVars, ScopeOf, LoweredExpr, Accepted, AllVars, PathVars;
    var n := |p.hops|;
    var ts, rs, paths := PatternTriples(p, 0, n), ReadTriples(NewReads({}, keys)), PatternPaths(p, 0, n);
    PatternVars(p, 0, n);
    AllVarsOfConcat(ts, rs);
    ReadTripleVars(NewReads({}, keys));
    NewReadsKeepAll(keys);
    BaseScope(ts + rs, paths);
  }

  // ---- What an expression uses ----

  lemma {:induction false} NodeNamesAreSlots(p: Pattern, n: nat)
    requires n <= |p.hops|
    ensures NodeNames(p, n) <= Slots(p, 0, n)
    decreases n
  {
    if n > 0 { NodeNamesAreSlots(p, n - 1); }
  }

  lemma {:induction false} RelVarsAreSlots(p: Pattern, n: nat, name: string)
    requires Accepted(p) && n <= |p.hops| && name in RelBindings(p, 0, n) && RelBindings(p, 0, n)[name].ByVar?
    ensures RelBindings(p, 0, n)[name].v in Slots(p, 0, n)
    decreases n
  {
    hide NodeAccepted;
    var k: nat := n - 1;
    var rel := p.hops[k].rel;
    assert RelAccepted(rel);
    if rel.variable != Some(name) { RelVarsAreSlots(p, k, name); }
  }

  /** Names of the pattern and variables of the properties read are all there is. */
  lemma {:induction false} ExprVarsCovered(p: Pattern, e: Expr, bound: set<Var>)
    requires Accepted(p) && ExprAccepted(ScopeOf(p, 0), e)
    requires Slots(p, 0, |p.hops|) <= bound && ReadVars(Reads(e)) <= bound
    ensures ExprVars(LoweredExpr(ScopeOf(p, 0), e)) <= bound
    decreases e
  {
    hide Slots, NodeNames, RelBindings, Accepted, ReadVars;
    match e
    case Variable(name) =>
      NodeNamesAreSlots(p, |p.hops|);
      if name !in NodeNames(p, |p.hops|) && RelBindings(p, 0, |p.hops|)[name].ByVar? { RelVarsAreSlots(p, |p.hops|, name); }
    case Property(base, prop) =>
      ReadVarsAre(Reads(e), PropVar(Key(base.name, prop)));
      assert Key(base.name, prop) in Reads(e);
    case Lit(_) =>
    case Binary(_, a, b) =>
      ReadVarsOfConcat(Reads(a), Reads(b));
      ExprVarsCovered(p, a, bound);
      ExprVarsCovered(p, b, bound);
    case Not(a) => ExprVarsCovered(p, a, bound);
    case Neg(a) => ExprVarsCovered(p, a, bound);
  }

  lemma {:induction false} ReadVarsOfConcat(a: seq<Key>, b: seq<Key>)
    ensures ReadVars(a + b) == ReadVars(a) + ReadVars(b)
    decreases |b|
  {
    if b == [] {
      assert a + b == a;
    } else {
      assert (a + b)[..|a + b| - 1] == a + b[..|b| - 1];
      ReadVarsOfConcat(a, b[..|b| - 1]);
    }
  }

  /** Every property read shows up as a variable. */
  lemma {:induction false} ReadsAreUsed(sc: Scope, e: Expr, k: Key)
    requires ExprAccepted(sc, e) && k in Reads(e)
    ensures PropVar(k) in ExprVars(LoweredExpr(sc, e)) && k.node in sc.nodes
    decreases e
  {
    match e
    case Variable(_) =>
    case Property(_, _) =>
    case Lit(_) =>
    case Binary(_, a, b) => if k in Reads(a) { ReadsAreUsed(sc, a, k); } else { ReadsAreUsed(sc, b, k); }
    case Not(a) => ReadsAreUsed(sc, a, k);
    case Neg(a) => ReadsAreUsed(sc, a, k);
  }

  /** Names used by themselves, outside a property. */
  function Mentions(e: Expr): set<string> {
    match e
    case Variable(name) => {name}
    case Property(_, _) => {}
    case Lit(_) => {}
    case Binary(_, a, b) => Mentions(a) + Mentions(b)
    case Not(a) => Mentions(a)
    case Neg(a) => Mentions(a)
  }

  lemma {:induction false} BareExprVars(sc: Scope, e: Expr)
    requires ExprAccepted(sc, e) && sc.rels == map[] && Reads(e) == []
    ensures ExprVars(LoweredExpr(sc, e)) == Mentions(e) <= sc.nodes
    decreases e
  {
    match e
    case Variable(_) =>
    case Property(_, _) =>
    case Lit(_) =>
    case Binary(_, a, b) => BareExprVars(sc, a); BareExprVars(sc, b);
    case Not(a) => BareExprVars(sc, a);
    case Neg(a) => BareExprVars(sc, a);
  }

  // ---- Read queries ----

  function WhereMentions(where_: Option<Expr>): set<string> { match where_ case Some(e) => Mentions(e) case None => {} }

  function ItemMentions(items: seq<ReturnItem>): set<string> {
    if items == [] then {} else ItemMentions(items[..|items| - 1]) + Mentions(items[|items| - 1].expr)
  }

  function KeyMentions(keys: seq<OrderItem>): set<string> {
    if keys == [] then {} else KeyMentions(keys[..|keys| - 1]) + Mentions(keys[|keys| - 1].expr)
  }

  function QueryMentions(q: Query): set<string> { WhereMentions(q.where_) + ItemMentions(q.items) + KeyMentions(q.orderBy) }

  /** All that the expressions of a query may use is in scope. */
  lemma CoveredByQuery(q: Query, e: Expr)
    requires QueryAccepted(q) && ExprAccepted(ScopeOf(q.pattern, 0), e)
    requires Anchored(q.pattern) || QueryReads(q) != [] || QueryMentions(q) == {}
    requires ReadVars(Reads(e)) <= ReadVars(QueryReads(q)) && Mentions(e) <= QueryMentions(q)
    requires forall k :: k in QueryReads(q) ==> k.node in NodeNames(q.pattern, |q.pattern.hops|)
    ensures ExprVars(LoweredExpr(ScopeOf(q.pattern, 0), e)) <= PatternScope(q.pattern) + ReadVars(QueryReads(q))
  {
    hide ReadVars, QueryReads, QueryMentions, Accepted, WhereAccepted, ItemsAccepted, KeysAccepted, ExprAccepted, LoweredExpr, ExprVars, Slots;
    var p, used := q.pattern, QueryReads(q);
    var bound := PatternScope(p) + ReadVars(used);
    if Anchored(p) {
      ExprVarsCovered(p, e, bound);
    } else if used != [] {
      var k := used[0];
      ReadVarsAre(used, k.node);
      assert k in used && k.node in KeyNames(k);
      assert Slots(p, 0, 0) == {NodeVarOf(p, 0, 0)} == {k.node} by { SlotsOfLoneNode(p, k.node); }
      ExprVarsCovered(p, e, bound);
    } else {
      NothingRead(Reads(e));
      BareExprVars(ScopeOf(p, 0), e);
    }
  }

  lemma SlotsOfLoneNode(p: Pattern, name: string)
    requires p.hops == [] && name in NodeNames(p, 0)
    ensures Slots(p, 0, 0) == {NodeVarOf(p, 0, 0)} == {name}
  {
  }

  lemma NothingRead(keys: seq<Key>)
    requires ReadVars(keys) <= ReadVars([])
    ensures keys == []
  {
  }

  /** The rows with one more column. */
  function OneMore(sc: Scope, rows: GraphPattern, item: ReturnItem): GraphPattern
    requires ItemAccepted(sc, item)
  {
    if NeedsExtend(sc, item) then Extend(rows, Column(item).value, LoweredExpr(sc, item.expr)) else rows
  }

  lemma RowsGrow(sc: Scope, gp: GraphPattern, items: seq<ReturnItem>)
    requires ItemsAccepted(sc, items) && items != []
    ensures ItemAccepted(sc, items[|items| - 1])
    ensures ExtendAll(gp, Extensions(sc, items)) == OneMore(sc, ExtendAll(gp, Extensions(sc, items[..|items| - 1])), items[|items| - 1])
    ensures Vars(Columns(items)) == Vars(Columns(items[..|items| - 1])) + {Column(items[|items| - 1]).value}
  {
    hide LoweredExpr, ExprAccepted, Column, IsVariableName;
    var front, last := items[..|items| - 1], items[|items| - 1];
    assert ItemAccepted(sc, last);
    assert Columns(items) == Columns(front) + [Column(last).value];
    if NeedsExtend(sc, last) {
      var exts, ext := Extensions(sc, front), (Column(last).value, LoweredExpr(sc, last.expr));
      assert (exts + [ext])[..|exts|] == exts;
    }
  }

  lemma {:induction false} ItemsScoped(sc: Scope, gp: GraphPattern, items: seq<ReturnItem>)
    requires ItemsAccepted(sc, items) && WellScoped(gp)
    requires forall i :: 0 <= i < |items| ==> ExprVars(LoweredExpr(sc, items[i].expr)) <= InScope(gp)
    ensures WellScoped(ExtendAll(gp, Extensions(sc, items))) && InScope(gp) <= InScope(ExtendAll(gp, Extensions(sc, items)))
    ensures Vars(Columns(items)) <= InScope(ExtendAll(gp, Extensions(sc, items)))
    decreases |items|
  {
    hide LoweredExpr, ExprAccepted, Column, IsVariableName, ExtendAll, Extensions, Columns, AllVars, ExprVars;
    if items == [] {
      NoItems(sc, gp);
    } else {
      var front, last := items[..|items| - 1], items[|items| - 1];
      RowsGrow(sc, gp, items);
      ItemsScoped(sc, gp, front);
      assert EVar(Column(last).value) == LoweredExpr(sc, last.expr) ==> Column(last).value in ExprVars(LoweredExpr(sc, last.expr)) by {
        VarUsesItself(Column(last).value);
      }
    }
  }

  lemma NoItems(sc: Scope, gp: GraphPattern)
    ensures ExtendAll(gp, Extensions(sc, [])) == gp && Columns([]) == [] && ItemMentions([]) == {}
  {
  }

  lemma VarUsesItself(v: Var)
    ensures ExprVars(EVar(v)) == {v}
  {
  }

  lemma {:induction false} KeysScoped(sc: Scope, keys: seq<OrderItem>, bound: set<Var>)
    requires KeysAccepted(sc, keys)
    requires forall i :: 0 <= i < |keys| ==> ExprVars(LoweredExpr(sc, keys[i].expr)) <= bound
    ensures KeyVars(LoweredKeys(sc, keys)) <= bound
    decreases |keys|
  {
    hide LoweredExpr, ExprAccepted;
    if keys != [] {
      var front := LoweredKeys(sc, keys[..|keys| - 1]);
      KeysScoped(sc, keys[..|keys| - 1], bound);
      var last := OrderKey(LoweredExpr(sc, keys[|keys| - 1].expr), keys[|keys| - 1].descending);
      assert (front + [last])[..|front|] == front;
    }
  }

  lemma {:induction false} ItemIn(items: seq<ReturnItem>, i: nat)
    requires i < |items|
    ensures ReadVars(Reads(items[i].expr)) <= ReadVars(ItemReads(items)) && Mentions(items[i].expr) <= ItemMentions(items)
    decreases |items|
  {
    hide ReadVars, Reads, Mentions;
    ReadVarsOfConcat(ItemReads(items[..|items| - 1]), Reads(items[|items| - 1].expr));
    if i < |items| - 1 { ItemIn(items[..|items| - 1], i); }
  }

  lemma {:induction false} KeyIn(keys: seq<OrderItem>, i: nat)
    requires i < |keys|
    ensures ReadVars(Reads(keys[i].expr)) <= ReadVars(KeyReads(keys)) && Mentions(keys[i].expr) <= KeyMentions(keys)
    decreases |keys|
  {
    hide ReadVars, Reads, Mentions;
    ReadVarsOfConcat(KeyReads(keys[..|keys| - 1]), Reads(keys[|keys| - 1].expr));
    if i < |keys| - 1 { KeyIn(keys[..|keys| - 1], i); }
  }

  lemma QueryReadVars(q: Query)
    ensures ReadVars(QueryReads(q)) == ReadVars(WhereReads(q.where_)) + ReadVars(ItemReads(q.items)) + ReadVars(KeyReads(q.orderBy))
  {
    ReadVarsOfConcat(WhereReads(q.where_), ItemReads(q.items));
    ReadVarsOfConcat(WhereReads(q.where_) + ItemReads(q.items), KeyReads(q.orderBy));
  }

  lemma {:induction false} ItemReadNodes(sc: Scope, items: seq<ReturnItem>, k: Key)
    requires ItemsAccepted(sc, items) && k in ItemReads(items)
    ensures k.node in sc.nodes
    decreases |items|
  {
    var last := items[|items| - 1];
    assert ItemAccepted(sc, last);
    if k in Reads(last.expr) { ReadsAreUsed(sc, last.expr, k); } else { ItemReadNodes(sc, items[..|items| - 1], k); }
  }

  lemma {:induction false} KeyReadNodes(sc: Scope, keys: seq<OrderItem>, k: Key)
    requires KeysAccepted(sc, keys) && k in KeyReads(keys)
    ensures k.node in sc.nodes
    decreases |keys|
  {
    var last := keys[|keys| - 1];
    if k in Reads(last.expr) { ReadsAreUsed(sc, last.expr, k); } else { KeyReadNodes(sc, keys[..|keys| - 1], k); }
  }

  lemma QueryReadNodes(q: Query, k: Key)
    requires QueryAccepted(q) && k in QueryReads(q)
    ensures k.node in NodeNames(q.pattern, |q.pattern.hops|)
  {
    var sc := ScopeOf(q.pattern, 0);
    if k in WhereReads(q.where_) { ReadsAreUsed(sc, q.where_.value, k); }
    else if k in ItemReads(q.items) { ItemReadNodes(sc, q.items, k); }
    else { KeyReadNodes(sc, q.orderBy, k); }
  }

  /** A query is well scoped when its pattern has a condition or an edge, or some
      property is read, or no node is used by itself. */
  lemma QueryScoped(q: Query)
    requires QueryAccepted(q)
    requires Anchored(q.pattern) || QueryReads(q) != [] || QueryMentions(q) == {}
    ensures WellScoped(QueryPattern(q))
  {
    hide ReadVars, Reads, Mentions, Accepted, LoweredExpr, ExprVars, PatternScope, NodeNames, ExprAccepted, Columns, Extensions, ExtendAll,
         LoweredKeys, Selection, QueryReads, ItemReads, KeyReads, ItemMentions, KeyMentions, Anchored;
    var sc, p, used := ScopeOf(q.pattern, 0), q.pattern, QueryReads(q);
    var bound := PatternScope(p) + ReadVars(used);
    var sel := Selection(p, 0, q.where_, used);
    forall k | k in used ensures k.node in NodeNames(p, |p.hops|) { QueryReadNodes(q, k); }
    QueryReadVars(q);
    SelectionScope(p, q.where_, used);
    if q.where_.Some? { CoveredByQuery(q, q.where_.value); }
    forall i | 0 <= i < |q.items| ensures ExprVars(LoweredExpr(sc, q.items[i].expr)) <= bound {
      assert ItemAccepted(sc, q.items[i]);
      ItemIn(q.items, i);
      CoveredByQuery(q, q.items[i].expr);
    }
    forall i | 0 <= i < |q.orderBy| ensures ExprVars(LoweredExpr(sc, q.orderBy[i].expr)) <= bound {
      KeyIn(q.orderBy, i);
      CoveredByQuery(q, q.orderBy[i].expr);
    }
    ItemsScoped(sc, sel, q.items);
    KeysScoped(sc, q.orderBy, bound);
    AssembledScope(q, ExtendAll(sel, Extensions(sc, q.items)));
  }

  /** The whole query in terms of its rows: ordering, projecting, removing duplicates and slicing add nothing to bind. */
  lemma AssembledScope(q: Query, rows: GraphPattern)
    requires QueryAccepted(q)
    requires rows == ExtendAll(Selection(q.pattern, 0, q.where_, QueryReads(q)), Extensions(ScopeOf(q.pattern, 0), q.items))
    ensures WellScoped(QueryPattern(q)) <==> WellScoped(rows) && Vars(Columns(q.items)) <= InScope(rows)
                                             && KeyVars(LoweredKeys(ScopeOf(q.pattern, 0), q.orderBy)) <= InScope(rows)
  {
    hide Accepted, LoweredExpr, ExprAccepted, Columns, Extensions, ExtendAll, Selection, QueryReads, ScopeOf;
    ModifiersScope(rows, LoweredKeys(ScopeOf(q.pattern, 0), q.orderBy), Columns(q.items), q.distinct, q.skip, q.limit);
  }

  lemma ModifiersScope(rows: GraphPattern, keys: seq<OrderKey>, columns: seq<Var>, distinct: bool, skip: Option<nat>, limit: Option<nat>)
    ensures WellScoped(Sliced(Deduplicated(Project(Ordered(rows, keys), columns), distinct), skip, limit))
            <==> WellScoped(rows) && Vars(columns) <= InScope(rows) && KeyVars(keys) <= InScope(rows)
  {
    hide AllVars, ExprVars, Vars, InScope, Ordered, Deduplicated, Sliced;
    OrderedScope(rows, keys);
    TrimmedScope(Project(Ordered(rows, keys), columns), distinct, skip, limit);
  }

  lemma OrderedScope(rows: GraphPattern, keys: seq<OrderKey>)
    ensures InScope(Ordered(rows, keys)) == InScope(rows)
    ensures WellScoped(Ordered(rows, keys)) <==> WellScoped(rows) && KeyVars(keys) <= InScope(rows)
  {
    hide AllVars, ExprVars;
    if keys == [] { assert KeyVars(keys) == {}; }
  }

  lemma TrimmedScope(gp: GraphPattern, distinct: bool, skip: Option<nat>, limit: Option<nat>)
    ensures WellScoped(Sliced(Deduplicated(gp, distinct), skip, limit)) <==> WellScoped(gp)
  {
    hide AllVars, ExprVars, InScope;
    assert WellScoped(Deduplicated(gp, distinct)) <==> WellScoped(gp);
  }

  /** The columns that get an expression of their own. */
  function ComputedColumns(sc: Scope, items: seq<ReturnItem>): set<Var>
    requires ItemsAccepted(sc, items)
  {
    if items == [] then {}
    else
      var last := items[|items| - 1];
      ComputedColumns(sc, items[..|items| - 1]) + if NeedsExtend(sc, last) then {Column(last).value} else {}
  }

  /** Every name a computed column mentions is the name of one computed before it. */
  predicate InOrder(sc: Scope, items: seq<ReturnItem>)
    requires ItemsAccepted(sc, items)
  {
    items == []
    || (InOrder(sc, items[..|items| - 1])
        && (NeedsExtend(sc, items[|items| - 1]) ==> Mentions(items[|items| - 1].expr) <= ComputedColumns(sc, items[..|items| - 1])))
  }

  /** Every name used by itself is that of a computed column, computed before the use. */
  predicate OnlyColumnsMentioned(q: Query)
    requires QueryAccepted(q)
  {
    var sc := ScopeOf(q.pattern, 0);
    && WhereMentions(q.where_) == {} && InOrder(sc, q.items)
    && ItemMentions(q.items) + KeyMentions(q.orderBy) <= ComputedColumns(sc, q.items)
  }

  lemma {:induction false} BareRows(sc: Scope, gp: GraphPattern, items: seq<ReturnItem>)
    requires ItemsAccepted(sc, items) && sc.rels == map[] && ItemReads(items) == [] && InScope(gp) == {}
    ensures InScope(ExtendAll(gp, Extensions(sc, items))) == ComputedColumns(sc, items)
    ensures WellScoped(ExtendAll(gp, Extensions(sc, items))) <==> WellScoped(gp) && InOrder(sc, items)
    ensures Vars(Columns(items)) <= ComputedColumns(sc, items) + ItemMentions(items)
    ensures InOrder(sc, items) ==> ItemMentions(items) <= Vars(Columns(items)) + ComputedColumns(sc, items)
    decreases |items|
  {
    hide LoweredExpr, ExprAccepted, Column, IsVariableName, ExtendAll, Extensions, Columns, AllVars, ExprVars, Mentions;
    if items == [] {
      NoItems(sc, gp);
    } else {
      var front, last := items[..|items| - 1], items[|items| - 1];
      RowsGrow(sc, gp, items);
      assert ItemReads(front) == [] && Reads(last.expr) == [] by { assert |ItemReads(items)| == |ItemReads(front)| + |Reads(last.expr)|; }
      BareRows(sc, gp, front);
      BareExprVars(sc, last.expr);
      VarUsesItself(Column(last).value);
    }
  }

  lemma {:induction false} BareKeys(sc: Scope, keys: seq<OrderItem>)
    requires KeysAccepted(sc, keys) && sc.rels == map[] && KeyReads(keys) == []
    ensures KeyVars(LoweredKeys(sc, keys)) == KeyMentions(keys)
    decreases |keys|
  {
    hide LoweredExpr, ExprAccepted, Mentions;
    if keys != [] {
      var rest, last := keys[..|keys| - 1], keys[|keys| - 1];
      assert KeyReads(rest) == [] && Reads(last.expr) == [] by { assert |KeyReads(keys)| == |KeyReads(rest)| + |Reads(last.expr)|; }
      var front := LoweredKeys(sc, rest);
      var key := OrderKey(LoweredExpr(sc, last.expr), last.descending);
      assert (front + [key])[..|front|] == front;
      assert KeyVars(front + [key]) == KeyVars(front) + ExprVars(key.expr);
      BareKeys(sc, rest);
      BareExprVars(sc, last.expr);
    }
  }

  /** A bare node of which no property is read is bound by nothing. */
  lemma BareQueryScopedIff(q: Query)
    requires QueryAccepted(q) && !Anchored(q.pattern) && QueryReads(q) == []
    ensures WellScoped(QueryPattern(q)) <==> OnlyColumnsMentioned(q)
  {
    hide ReadVars, Reads, Mentions, Accepted, LoweredExpr, ExprVars, ExprAccepted, Columns, Extensions, ExtendAll,
         LoweredKeys, Selection, ItemReads, KeyReads, ItemMentions, KeyMentions, NeedsExtend, ComputedColumns, InOrder;
    var sc, p := ScopeOf(q.pattern, 0), q.pattern;
    var sel := Selection(p, 0, q.where_, QueryReads(q));
    assert |QueryReads(q)| == |WhereReads(q.where_)| + |ItemReads(q.items)| + |KeyReads(q.orderBy)|;
    assert sc.rels == map[];
    SelectionScope(p, q.where_, []);
    assert ReadVars([]) == {} by { NoReadVars(); }
    assert InScope(sel) == {};
    AssembledScope(q, ExtendAll(sel, Extensions(sc, q.items)));
    BareRows(sc, sel, q.items);
    BareKeys(sc, q.orderBy);
    if q.where_.Some? { BareExprVars(sc, q.where_.value); }
  }

  lemma NoReadVars()
    ensures ReadVars([]) == {}
  {
  }

  /** Exactly which accepted read queries are well scoped. */
  lemma QueryScopedIff(q: Query)
    requires QueryAccepted(q)
    ensures WellScoped(QueryPattern(q)) <==> Anchored(q.pattern) || QueryReads(q) != [] || OnlyColumnsMentioned(q)
  {
    hide *;
    if Anchored(q.pattern) || QueryReads(q) != [] { QueryScoped(q); } else { BareQueryScopedIff(q); }
  }

  // ---- New variables ----

  /** Every extension binds a variable that is not bound yet, as section 18.2.1 of
      SPARQL 1.1 Query Language asks. */
  predicate ExtendsNew(gp: GraphPattern) {
    match gp
    case Bgp(_) => true
    case Path(_, _, _, _) => true
    case Join(l, r) => ExtendsNew(l) && ExtendsNew(r)
    case LeftJoin(l, r) => ExtendsNew(l) && ExtendsNew(r)
    case Filter(_, inner) => ExtendsNew(inner)
    case Extend(inner, v, _) => ExtendsNew(inner) && v !in InScope(inner)
    case OrderBy(inner, _) => ExtendsNew(inner)
    case Project(inner, _) => ExtendsNew(inner)
    case Distinct(inner) => ExtendsNew(inner)
    case Slice(inner, _, _) => ExtendsNew(inner)
  }

  /** No computed column takes a name that is bound, or computed twice. */
  predicate ColumnsAreNew(sc: Scope, bound: set<Var>, items: seq<ReturnItem>)
    requires ItemsAccepted(sc, items)
  {
    items == []
    || (var front, last := items[..|items| - 1], items[|items| - 1];
        && ColumnsAreNew(sc, bound, front)
        && (NeedsExtend(sc, last) ==> Column(last).value !in bound + ComputedColumns(sc, front)))
  }

  lemma {:induction false} RowsExtendNew(sc: Scope, gp: GraphPattern, items: seq<ReturnItem>)
    requires ItemsAccepted(sc, items) && ExtendsNew(gp)
    ensures InScope(ExtendAll(gp, Extensions(sc, items))) == InScope(gp) + ComputedColumns(sc, items)
    ensures ExtendsNew(ExtendAll(gp, Extensions(sc, items))) <==> ColumnsAreNew(sc, InScope(gp), items)
    decreases |items|
  {
    hide LoweredExpr, ExprAccepted, Column, IsVariableName, ExtendAll, Extensions, Columns, AllVars;
    if items == [] {
      NoItems(sc, gp);
    } else {
      RowsGrow(sc, gp, items);
      RowsExtendNew(sc, gp, items[..|items| - 1]);
    }
  }

  lemma {:induction false} BaseExtendsNothing(ts: seq<TriplePattern>, paths: seq<GraphPattern>)
    requires AllPaths(paths)
    ensures ExtendsNew(Base(ts, paths))
    decreases |paths|
  {
    hide InScope;
    if paths != [] {
      assert paths[|paths| - 1] in paths;
      BaseExtendsNothing(ts, paths[..|paths| - 1]);
    }
  }

  /** Exactly which accepted queries extend only new variables: those in which no
      computed column is called like a variable of the pattern, a property read, or
      an earlier computed column. */
  lemma QueryExtendsNewIff(q: Query)
    requires QueryAccepted(q)
    ensures ExtendsNew(QueryPattern(q))
            <==> ColumnsAreNew(ScopeOf(q.pattern, 0), PatternScope(q.pattern) + ReadVars(QueryReads(q)), q.items)
  {
    hide Accepted, LoweredExpr, ExprAccepted, Columns, Extensions, ExtendAll, QueryReads, ScopeOf, PatternTriples, PatternPaths, Base, InScope,
         PatternScope, ReadVars, ColumnsAreNew, NewReads, ReadTriples, LoweredKeys;
    var p := q.pattern;
    var sel := Selection(p, 0, q.where_, QueryReads(q));
    SelectionExtendsNothing(p, q.where_, QueryReads(q));
    SelectionScope(p, q.where_, QueryReads(q));
    hide Selection;
    RowsExtendNew(ScopeOf(p, 0), sel, q.items);
    var rows := ExtendAll(sel, Extensions(ScopeOf(p, 0), q.items));
    ModifiersExtendNothing(rows, LoweredKeys(ScopeOf(p, 0), q.orderBy), Columns(q.items), q.distinct, q.skip, q.limit);
    hide ExtendsNew;
    assert QueryPattern(q) == Sliced(Deduplicated(Project(Ordered(rows, LoweredKeys(ScopeOf(p, 0), q.orderBy)), Columns(q.items)), q.distinct), q.skip, q.limit);
  }

  lemma ModifiersExtendNothing(rows: GraphPattern, keys: seq<OrderKey>, columns: seq<Var>, distinct: bool, skip: Option<nat>, limit: Option<nat>)
    ensures ExtendsNew(Sliced(Deduplicated(Project(Ordered(rows, keys), columns), distinct), skip, limit)) <==> ExtendsNew(rows)
  {
    hide InScope;
    assert ExtendsNew(Ordered(rows, keys)) <==> ExtendsNew(rows);
    var projected := Project(Ordered(rows, keys), columns);
    assert ExtendsNew(projected) <==> ExtendsNew(Ordered(rows, keys));
    assert ExtendsNew(Deduplicated(projected, distinct)) <==> ExtendsNew(projected);
  }

  lemma SelectionExtendsNothing(p: Pattern, where_: Option<Expr>, keys: seq<Key>)
    requires Accepted(p) && WhereAccepted(ScopeOf(p, 0), where_)
    ensures ExtendsNew(Selection(p, 0, where_, keys))
  {
    hide Accepted, LoweredExpr, ExprAccepted, PatternTriples, PatternPaths, Base, InScope, NewReads, ReadTriples, ScopeOf;
    PatternVars(p, 0, |p.hops|);
    BaseExtendsNothing(PatternTriples(p, 0, |p.hops|) + ReadTriples(NewReads({}, keys)), PatternPaths(p, 0, |p.hops|));
  }

  /** RETURN n.age AS n extends the node's own variable. */
  lemma AliasMayRebind()
    ensures
      var q := Query(Pattern(NodePattern(Some("n"), ["Person"], []), []), None, false,
                     [ReturnItem(Property(Variable("n"), "age"), Some("n"))], [], None, None);
      QueryAccepted(q) && WellScoped(QueryPattern(q)) && !ExtendsNew(QueryPattern(q))
  {
    var p := Pattern(NodePattern(Some("n"), ["Person"], []), []);
    var item := ReturnItem(Property(Variable("n"), "age"), Some("n"));
    var q := Query(p, None, false, [item], [], None, None);
    assert NodeNames(p, 0) == {"n"} && Slots(p, 0, 0) == {"n"};
    var sc := ScopeOf(p, 0);
    assert ItemAccepted(sc, item) && [item][..0] == [];
    assert LoweredExpr(sc, item.expr) == EVar(PropVar(Key("n", "age")));
    assert |PropVar(Key("n", "age"))| == 5;
    assert NeedsExtend(sc, item);
    QueryScopedIff(q);
    QueryExtendsNewIff(q);
  }

  // ---- Write statements ----

  function BaseScopeOf(s: Statement, p: Pattern): set<Var> { PatternScope(p) + ReadVars(WhereReads(s.where_)) }

  function TemplateVars(op: Update): set<Var> { AllVars(op.delete) + AllVars(op.insert) }

  /** An operation whose pattern is well scoped and binds all of its templates. */
  predicate OpScoped(op: Update) { WellScoped(op.pattern) && TemplateVars(op) <= InScope(op.pattern) }

  /** The base binds the nodes of the pattern: by the pattern itself or by a read. */
  predicate BindsNodes(s: Statement, p: Pattern) { Anchored(p) || WhereReads(s.where_) != [] }

  /** The base uses only what it binds. */
  predicate BaseScoped(s: Statement, p: Pattern) { BindsNodes(s, p) || WhereMentions(s.where_) == {} }

  lemma BaseCoversSlots(s: Statement, p: Pattern)
    requires MatchAccepted(s) && s.pattern == Some(p)
    ensures BindsNodes(s, p) ==> Slots(p, 0, |p.hops|) <= BaseScopeOf(s, p)
    ensures !BindsNodes(s, p) ==> BaseScopeOf(s, p) == {} && p.hops == []
  {
    hide Slots, LoweredExpr, ExprAccepted, NodeAccepted, NodeNames;
    if !Anchored(p) && WhereReads(s.where_) != [] {
      var k := WhereReads(s.where_)[0];
      ReadsAreUsed(ScopeOf(p, 0), s.where_.value, k);
      SlotsOfLoneNode(p, k.node);
      ReadVarsAre(WhereReads(s.where_), k.node);
      assert k in WhereReads(s.where_) && k.node in KeyNames(k);
    }
  }

  lemma MatchScope(s: Statement, p: Pattern)
    requires MatchAccepted(s) && s.pattern == Some(p)
    ensures InScope(MatchOf(s).base) == BaseScopeOf(s, p) && IsMatch(MatchOf(s).base)
    ensures WellScoped(MatchOf(s).base) <==> BaseScoped(s, p)
    ensures MatchOf(s).scope.nodes <= Slots(p, 0, |p.hops|)
  {
    hide ReadVars, Slots, NodeNames, LoweredExpr, ExprVars, Accepted, Selection, RelEnds, CounterAfter, ExprAccepted, Mentions;
    SelectionScope(p, s.where_, WhereReads(s.where_));
    NodeNamesAreSlots(p, |p.hops|);
    BaseCoversSlots(s, p);
    if s.where_.Some? {
      if BindsNodes(s, p) { ExprVarsCovered(p, s.where_.value, BaseScopeOf(s, p)); } else { BareExprVars(ScopeOf(p, 0), s.where_.value); }
    }
  }

  lemma SingleVars(t: TriplePattern)
    ensures AllVars([t]) == TripleVars(t) && AllVars([]) == {}
  {
    assert [t][..0] == [];
  }

  lemma WithOldScope(base: GraphPattern, v: Var, prop: string, old_: Var)
    ensures InScope(WithOld(base, v, prop, old_)) == InScope(base) + {v, old_}
    ensures WellScoped(WithOld(base, v, prop, old_)) <==> WellScoped(base)
  {
    SingleVars(PropPattern(v, prop, old_));
  }

  /** The value of a SET is well scoped when each property it reads was read by the
      WHERE, or is called like some variable that is bound anyway. */
  lemma SetScopedIff(s: Statement, p: Pattern, v: Var, prop: string, value: Expr, c: nat)
    requires MatchAccepted(s) && s.pattern == Some(p) && WriteAccepted(MatchOf(s), SetProperty(v, prop, value))
    ensures OpScoped(SetPropertyOp(MatchOf(s), v, prop, value, c))
            <==> BaseScoped(s, p) && forall k :: k in Reads(value) ==> PropVar(k) in BaseScopeOf(s, p) + {v, FreshName("set_old", c)}
  {
    hide ReadVars, Slots, NodeNames, Accepted, MatchOf, PatternScope, FreshName, MatchAccepted, WellScoped, InScope, AllVars, Reads, WithOld, BaseScoped;
    var m := MatchOf(s);
    var old_, new_ := FreshName("set_old", c), FreshName("set_val", c + 1);
    MatchScope(s, p);
    WithOldScope(m.base, v, prop, old_);
    SingleVars(PropPattern(v, prop, old_));
    SingleVars(PropPattern(v, prop, new_));
    LoneTarget(s, p, v);
    SetValueScope(s, p, value, BaseScopeOf(s, p) + {v, old_});
    ExtendScope(WithOld(m.base, v, prop, old_), new_, LoweredExpr(m.scope, value));
  }

  /** A node to be written is bound, or the only one there is. */
  lemma LoneTarget(s: Statement, p: Pattern, v: Var)
    requires MatchAccepted(s) && s.pattern == Some(p) && v in MatchOf(s).scope.nodes
    ensures Slots(p, 0, |p.hops|) <= BaseScopeOf(s, p) + {v}
    ensures BindsNodes(s, p) ==> v in BaseScopeOf(s, p)
    ensures !BindsNodes(s, p) ==> BaseScopeOf(s, p) == {}
  {
    hide ReadVars, Slots, NodeNames;
    BaseCoversSlots(s, p);
    NodeNamesAreSlots(p, |p.hops|);
    if !BindsNodes(s, p) { SlotsOfLoneNode(p, v); }
  }

  lemma ExtendScope(inner: GraphPattern, v: Var, e: SExpr)
    ensures InScope(Extend(inner, v, e)) == InScope(inner) + {v}
    ensures WellScoped(Extend(inner, v, e)) <==> WellScoped(inner) && ExprVars(e) <= InScope(inner)
  {
    hide AllVars, ExprVars;
  }

  lemma SetValueScope(s: Statement, p: Pattern, value: Expr, bound: set<Var>)
    requires MatchAccepted(s) && s.pattern == Some(p) && ExprAccepted(MatchOf(s).scope, value)
    requires Slots(p, 0, |p.hops|) <= bound
    ensures ExprVars(LoweredExpr(MatchOf(s).scope, value)) <= bound <==> forall k :: k in Reads(value) ==> PropVar(k) in bound
  {
    hide Slots, LoweredExpr, ExprVars, Accepted, Selection, RelEnds, CounterAfter, ExprAccepted, RelBindings, NodeNames;
    var sc := MatchOf(s).scope;
    assert sc == ScopeOf(p, 0);
    if ExprVars(LoweredExpr(sc, value)) <= bound {
      forall k | k in Reads(value) ensures PropVar(k) in bound { ReadsAreUsed(sc, value, k); }
    }
    if forall k :: k in Reads(value) ==> PropVar(k) in bound {
      NodeNamesAreSlots(p, |p.hops|);
      forall x | x in ReadVars(Reads(value)) ensures x in bound {
        ReadVarsAre(Reads(value), x);
        var k :| k in Reads(value) && x in KeyNames(k);
        ReadsAreUsed(sc, value, k);
      }
      ExprVarsCovered(p, value, bound);
    }
  }

  // ---- Names without underscores ----

  predicate Clear(name: string) { name == "" || name[0] != '_' }

  /** No name the user gave a part of the pattern starts with an underscore. */
  ghost predicate ClearNames(p: Pattern) { forall name :: name in UserVars(p, |p.hops|) ==> Clear(name) }

  /** Such names are never the ones the lowering makes up. */
  lemma ClearNamesNeverCollide(p: Pattern, c: nat)
    requires ClearNames(p)
    ensures NoCollision(p, c)
  {
    hide CounterAfter, UserVars;
    forall prefix: string, n: nat ensures !Clear(FreshName(prefix, n)) { assert FreshName(prefix, n)[0] == '_'; }
  }

  predicate Plain(name: string) { '_' !in name }

  /** No name contains an underscore at all. */
  ghost predicate PlainNames(p: Pattern) { forall name :: name in UserVars(p, |p.hops|) ==> Plain(name) }

  lemma PlainIsClear(p: Pattern)
    requires PlainNames(p)
    ensures ClearNames(p)
  {
    hide UserVars;
  }

  lemma PropVarSplits(a: Key, b: Key)
    requires Plain(a.node) && Plain(b.node) && PropVar(a) == PropVar(b)
    ensures a == b
  {
    var s := PropVar(a);
    assert s[|a.node|] == '_' && s[|b.node|] == '_';
    assert forall i :: 0 <= i < |a.node| ==> s[i] == a.node[i];
    assert forall i :: 0 <= i < |b.node| ==> s[i] == b.node[i];
    assert |a.node| == |b.node|;
    assert a.node == s[..|a.node|] == b.node;
    assert a.prop == s[|a.node| + 1..] == b.prop;
  }

  lemma PropVarIsNew(k: Key, prefix: string, n: nat)
    requires Clear(k.node) && k.node != ""
    ensures PropVar(k) != FreshName(prefix, n)
  {
    assert PropVar(k)[0] == k.node[0] && FreshName(prefix, n)[0] == '_';
  }

  lemma PropVarIsNotPlain(k: Key)
    ensures !Plain(PropVar(k))
  {
    assert PropVar(k)[|k.node|] == '_';
  }

  lemma {:induction false} SlotsAre(p: Pattern, n: nat, v: Var)
    requires n <= |p.hops| && v in Slots(p, 0, n)
    ensures v in UserVars(p, n) || (exists i :: v == FreshName("node", i)) || exists i :: v == FreshName("rel", i)
    decreases n
  {
    hide FreshName, CounterAfter;
    if n > 0 && v in Slots(p, 0, n - 1) { SlotsAre(p, n - 1, v); }
  }

  lemma {:induction false} NodeNamesAreUserVars(p: Pattern, n: nat)
    requires Accepted(p) && n <= |p.hops|
    ensures NodeNames(p, n) <= UserVars(p, n) && forall name :: name in NodeNames(p, n) ==> name != ""
    decreases n
  {
    hide RelAccepted;
    assert NodeAccepted(NodeAt(p, n));
    if n > 0 { NodeNamesAreUserVars(p, n - 1); }
  }

  /** With plain names a property read is bound only if the WHERE reads it too. */
  lemma ReadBoundIff(s: Statement, p: Pattern, v: Var, k: Key, c: nat)
    requires MatchAccepted(s) && s.pattern == Some(p) && PlainNames(p) && k.node in MatchOf(s).scope.nodes && v in MatchOf(s).scope.nodes
    ensures PropVar(k) in BaseScopeOf(s, p) + {v, FreshName("set_old", c)} <==> k in WhereReads(s.where_)
  {
    hide FreshName, Accepted, LoweredExpr, Selection, RelEnds, RelBindings, CounterAfter, ReadVars, Slots, UserVars, NodeNames, PropVar, Plain;
    var used := WhereReads(s.where_);
    NodeNamesAreUserVars(p, |p.hops|);
    PlainIsClear(p);
    PropVarIsNew(k, "set_old", c);
    PropVarIsNotPlain(k);
    assert Plain(v) && !Plain(PropVar(k));
    ReadVarsAre(used, PropVar(k));
    if k in used { assert PropVar(k) in KeyNames(k); }
    else {
      if PropVar(k) in Slots(p, 0, |p.hops|) {
        SlotsAre(p, |p.hops|, PropVar(k));
        if i :| PropVar(k) == FreshName("node", i) { PropVarIsNew(k, "node", i); }
        if i :| PropVar(k) == FreshName("rel", i) { PropVarIsNew(k, "rel", i); }
        assert false;
      }
      forall j | j in used ensures PropVar(k) !in KeyNames(j) {
        ReadsAreUsed(MatchOf(s).scope, s.where_.value, j);
        if PropVar(k) == PropVar(j) { PropVarSplits(k, j); }
      }
    }
  }

  // ---- Whole statements ----

  ghost predicate OpsScoped(ops: seq<Update>) { forall op :: op in ops ==> OpScoped(op) }

  /** Every property the clause's value reads was read by the WHERE. */
  ghost predicate ReadsKnown(s: Statement, w: WriteClause) {
    w.SetProperty? ==> forall k :: k in Reads(w.value) ==> k in WhereReads(s.where_)
  }

  /** Templates that use only what the pattern binds. */
  lemma BaseOpScoped(base: GraphPattern, delete: seq<TriplePattern>, insert: seq<TriplePattern>)
    requires AllVars(delete) <= InScope(base) && AllVars(insert) <= InScope(base)
    ensures OpScoped(DeleteInsert(delete, insert, base)) <==> WellScoped(base)
  {
  }

  lemma JoinOpScoped(base: GraphPattern, t: TriplePattern)
    ensures OpScoped(DeleteInsert([t], [], Join(base, Bgp([t])))) <==> WellScoped(base)
  {
    SingleVars(t);
    hide AllVars, TripleVars;
    var gp := Join(base, Bgp([t]));
    assert InScope(gp) == InScope(base) + InScope(Bgp([t])) && InScope(Bgp([t])) == AllVars([t]);
    assert WellScoped(gp) <==> WellScoped(base) && WellScoped(Bgp([t]));
    assert WellScoped(Bgp([t]));
  }

  lemma LabelOpScoped(base: GraphPattern, v: Var, name: string)
    ensures OpScoped(DeleteInsert([LabelTriple(v, name)], [], base)) <==> WellScoped(base) && v in InScope(base)
    ensures OpScoped(DeleteInsert([], [LabelTriple(v, name)], base)) <==> WellScoped(base) && v in InScope(base)
  {
    SingleVars(LabelTriple(v, name));
  }

  lemma RemoveOpScoped(m: MatchBase, v: Var, prop: string, c: nat)
    ensures OpScoped(RemovePropertyOp(m, v, prop, c)) <==> WellScoped(m.base)
  {
    hide FreshName;
    WithOldScope(m.base, v, prop, FreshName("remove_old", c));
    SingleVars(PropPattern(v, prop, FreshName("remove_old", c)));
  }

  lemma {:induction false} EndsAreSlots(p: Pattern, n: nat, name: string)
    requires n <= |p.hops| && name in RelEnds(p, 0, n)
    ensures RelEnds(p, 0, n)[name].0 in Slots(p, 0, n) && RelEnds(p, 0, n)[name].1 in Slots(p, 0, n) && n > 0
    decreases n
  {
    if n > 0 {
      var k: nat := n - 1;
      SlotsHave(p, 0, n, k);
      SlotsHave(p, 0, n, n);
      if p.hops[k].rel.variable != Some(name) { EndsAreSlots(p, k, name); }
    }
  }

  lemma DeleteEdgeScoped(s: Statement, p: Pattern, name: string)
    requires MatchAccepted(s) && s.pattern == Some(p) && name in MatchOf(s).ends && name in MatchOf(s).scope.rels
    ensures OpScoped(DeleteEdgeOp(MatchOf(s), name)) <==> BaseScoped(s, p)
  {
    hide Slots, Accepted, LoweredExpr, Selection, RelEnds, RelBindings, CounterAfter, ReadVars, WellScoped, NodeNames, InScope, AllVars;
    var op := DeleteEdgeOp(MatchOf(s), name);
    MatchScope(s, p);
    EndsAreSlots(p, |p.hops|, name);
    BaseCoversSlots(s, p);
    if MatchOf(s).scope.rels[name].ByVar? { RelVarsAreSlots(p, |p.hops|, name); }
    SingleVars(op.delete[0]);
    assert op.delete == [op.delete[0]];
    BaseOpScoped(MatchOf(s).base, op.delete, []);
  }

  lemma {:induction false} DeleteScoped(s: Statement, p: Pattern, names: seq<string>, c: nat)
    requires MatchAccepted(s) && s.pattern == Some(p) && DeleteAccepted(MatchOf(s), names)
    requires MatchOf(s).ends.Keys == MatchOf(s).scope.rels.Keys
    ensures OpsScoped(DeleteOps(MatchOf(s), names, c)) <==> names == [] || BaseScoped(s, p)
    decreases |names|
  {
    hide MatchOf, OpScoped, DeleteEdgeOp, MatchAccepted, WellScoped, InScope, FreshName, BaseScoped;
    if names != [] {
      var m, front, last := MatchOf(s), names[..|names| - 1], names[|names| - 1];
      DeleteScoped(s, p, front, c);
      if last in m.ends {
        DeleteEdgeScoped(s, p, last);
        assert DeleteEdgeOp(m, last) in DeleteOps(m, names, c);
      } else {
        var at := DeleteCounter(m, front, c);
        MatchScope(s, p);
        JoinOpScoped(m.base, SubjectSide(m.base, last, at).delete[0]);
        JoinOpScoped(m.base, ObjectSide(m.base, last, at).delete[0]);
        assert SubjectSide(m.base, last, at) in DeleteOps(m, names, c);
      }
    }
  }

  /** What a clause needs, its first fresh name counted from `c`: a base that is well
      scoped, variables for the properties its value reads, a bound node for a label. */
  ghost predicate ClauseScoped(s: Statement, p: Pattern, w: WriteClause, c: nat) {
    match w
    case SetProperty(v, _, value) =>
      BaseScoped(s, p) && forall k :: k in Reads(value) ==> PropVar(k) in BaseScopeOf(s, p) + {v, FreshName("set_old", c)}
    case SetLabel(_, _) => BindsNodes(s, p)
    case RemoveLabel(_, _) => BindsNodes(s, p)
    case RemoveProperty(_, _) => BaseScoped(s, p)
    case Delete(names, _) => names == [] || BaseScoped(s, p)
  }

  lemma WriteScopedIff(s: Statement, p: Pattern, w: WriteClause, c: nat)
    requires MatchAccepted(s) && s.pattern == Some(p) && WriteAccepted(MatchOf(s), w)
    requires MatchOf(s).ends.Keys == MatchOf(s).scope.rels.Keys
    ensures OpsScoped(WriteOps(MatchOf(s), w, c)) <==> ClauseScoped(s, p, w, c)
  {
    hide MatchOf, OpScoped, SetPropertyOp, RemovePropertyOp, DeleteOps, MatchAccepted, WellScoped, InScope, BaseScopeOf, BindsNodes, LabelTriple, Reads, PropVar;
    var m := MatchOf(s);
    MatchScope(s, p);
    match w {
      case SetProperty(v, prop, value) =>
        SetScopedIff(s, p, v, prop, value, c);
        OneOp(SetPropertyOp(m, v, prop, value, c));
      case SetLabel(v, name) =>
        LoneTarget(s, p, v);
        LabelOpScoped(m.base, v, name);
        OneOp(DeleteInsert([], [LabelTriple(v, name)], m.base));
      case Delete(names, _) =>
        DeleteScoped(s, p, names, c);
      case RemoveProperty(v, prop) =>
        RemoveOpScoped(m, v, prop, c);
        OneOp(RemovePropertyOp(m, v, prop, c));
      case RemoveLabel(v, name) =>
        LoneTarget(s, p, v);
        LabelOpScoped(m.base, v, name);
        OneOp(DeleteInsert([LabelTriple(v, name)], [], m.base));
    }
  }

  lemma OneOp(op: Update)
    ensures OpsScoped([op]) <==> OpScoped(op)
  {
    assert op in [op];
  }

  /** Clause `i`, its names counted on from those of the clauses before. */
  ghost predicate ClauseScopedAt(s: Statement, p: Pattern, ws: seq<WriteClause>, i: nat)
    requires MatchAccepted(s) && i < |ws|
  {
    ClauseScoped(s, p, ws[i], CounterAfterWrites(MatchOf(s), ws[..i]))
  }

  lemma {:induction false} WritesScopedIff(s: Statement, p: Pattern, ws: seq<WriteClause>)
    requires MatchAccepted(s) && s.pattern == Some(p) && WritesAccepted(MatchOf(s), ws)
    requires MatchOf(s).ends.Keys == MatchOf(s).scope.rels.Keys
    ensures OpsScoped(WritesOps(MatchOf(s), ws)) <==> forall i: nat :: i < |ws| ==> ClauseScopedAt(s, p, ws, i)
    decreases |ws|
  {
    hide MatchOf, OpScoped, WriteOps, MatchAccepted, ClauseScoped, CounterAfterWrites, WriteAccepted;
    if ws != [] {
      var m, n: nat := MatchOf(s), |ws| - 1;
      var front, last := ws[..n], ws[n];
      assert WriteAccepted(m, last);
      WritesScopedIff(s, p, front);
      forall i: nat | i < n ensures ClauseScopedAt(s, p, front, i) <==> ClauseScopedAt(s, p, ws, i) { assert front[..i] == ws[..i]; }
      WriteScopedIff(s, p, last, CounterAfterWrites(m, front));
      var more := WriteOps(m, last, CounterAfterWrites(m, front));
      assert forall op :: op in WritesOps(m, front) + more <==> op in WritesOps(m, front) || op in more;
      assert ClauseScopedAt(s, p, ws, n) <==> OpsScoped(more);
    }
  }

  /** Exactly which accepted write statements are well scoped. */
  lemma StatementScopedIff(s: Statement, p: Pattern)
    requires StatementAccepted(s) && s.pattern == Some(p)
    ensures OpsScoped(StatementOps(s)) <==> forall i: nat :: i < |s.writes| ==> ClauseScopedAt(s, p, s.writes, i)
  {
    hide MatchOf, OpsScoped, WritesOps, MatchAccepted, WritesAccepted, ClauseScopedAt;
    MatchEnds(s);
    WritesScopedIff(s, p, s.writes);
  }

  /** What a clause needs when names are plain: a SET value reads only properties that
      the WHERE read, the base being copied before. */
  ghost predicate PlainClauseScoped(s: Statement, p: Pattern, w: WriteClause) {
    match w
    case SetProperty(_, _, _) => BaseScoped(s, p) && ReadsKnown(s, w)
    case SetLabel(_, _) => BindsNodes(s, p)
    case RemoveLabel(_, _) => BindsNodes(s, p)
    case RemoveProperty(_, _) => BaseScoped(s, p)
    case Delete(names, _) => names == [] || BaseScoped(s, p)
  }

  lemma PlainClauseScopedIff(s: Statement, p: Pattern, w: WriteClause, c: nat)
    requires MatchAccepted(s) && s.pattern == Some(p) && PlainNames(p) && WriteAccepted(MatchOf(s), w)
    ensures ClauseScoped(s, p, w, c) <==> PlainClauseScoped(s, p, w)
  {
    hide MatchOf, BaseScopeOf, PlainNames, FreshName, PropVar, WhereReads, MatchAccepted, Reads, LoweredExpr, BaseScoped, BindsNodes;
    if w.SetProperty? {
      forall k | k in Reads(w.value)
        ensures PropVar(k) in BaseScopeOf(s, p) + {w.variable, FreshName("set_old", c)} <==> k in WhereReads(s.where_)
      {
        ReadsAreUsed(MatchOf(s).scope, w.value, k);
        ReadBoundIff(s, p, w.variable, k, c);
      }
    }
  }

  /** With plain names the counter does not matter. */
  lemma PlainStatementScopedIff(s: Statement, p: Pattern)
    requires StatementAccepted(s) && s.pattern == Some(p) && PlainNames(p)
    ensures OpsScoped(StatementOps(s)) <==> forall w :: w in s.writes ==> PlainClauseScoped(s, p, w)
  {
    hide MatchOf, OpsScoped, StatementOps, MatchAccepted, PlainNames, ClauseScoped, PlainClauseScoped, WriteAccepted, CounterAfterWrites;
    StatementScopedIff(s, p);
    forall i: nat | i < |s.writes| ensures ClauseScopedAt(s, p, s.writes, i) <==> PlainClauseScoped(s, p, s.writes[i]) {
      assert WriteAccepted(MatchOf(s), s.writes[i]);
      PlainClauseScopedIff(s, p, s.writes[i], CounterAfterWrites(MatchOf(s), s.writes[..i]));
    }
    if forall w :: w in s.writes ==> PlainClauseScoped(s, p, w) {
      forall i: nat | i < |s.writes| ensures ClauseScopedAt(s, p, s.writes, i) { assert s.writes[i] in s.writes; }
    }
  }
}
