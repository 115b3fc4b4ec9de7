/** The state the lowering threads through a query, and the methods that update it. */
module CypherLower {
  import opened Options
  import opened CypherSyntax
  import opened CypherMapping
  import opened Sparql

  class LowerCtx {
    var nodeVars: map<string, Var>
    var relVars: map<string, RelBinding>
    var relEndpoints: map<string, (Var, Var)>
    var propVars: map<Key, Var>
    var triples: seq<TriplePattern>
    var paths: seq<GraphPattern>
    var counter: nat

    constructor ()
      ensures nodeVars == map[] && relVars == map[] && relEndpoints == map[] && propVars == map[]
      ensures triples == [] && paths == [] && counter == 0
    {
      nodeVars, relVars, relEndpoints, propVars := map[], map[], map[], map[];
      triples, paths, counter := [], [], 0;
    }

    method FreshVar(prefix: string) returns (v: Var)
      modifies this`counter
      ensures v == FreshName(prefix, old(counter)) && counter == old(counter) + 1
    {
      v := FreshName(prefix, counter);
      counter := counter + 1;
    }

    /** Every registered node variable is a legal name and keeps it. */
    ghost predicate NamesThemselves()
      reads this`nodeVars
    {
      forall name :: name in nodeVars ==> nodeVars[name] == name && IsVariableName(name)
    }

    method NodeVar(name: string) returns (r: Result<Var>)
      requires NamesThemselves()
      modifies this`nodeVars
      ensures NamesThemselves()
      ensures r == if IsVariableName(name) then Ok(name) else Err
      ensures nodeVars == if r.Ok? then old(nodeVars)[name := name] else old(nodeVars)
    {
      if name in nodeVars {
        assert nodeVars == nodeVars[name := name];
        return Ok(nodeVars[name]);
      }
      if !IsVariableName(name) { return Err; }
      nodeVars := nodeVars[name := name];
      return Ok(name);
    }

    /** Pushes one triple per property; a NULL value is refused. */
    method PushProperties(subject: TermPattern, props: seq<(string, Literal)>) returns (r: Result<()>)
      modifies this`triples
      ensures r.Ok? <==> NoNulls(props)
      ensures r.Ok? ==> triples == old(triples) + PropTriples(subject, props)
    {
      for i := 0 to |props|
        invariant triples == old(triples) + PropTriples(subject, props[..i])
        invariant forall j :: 0 <= j < i ==> !props[j].1.Null?
      {
        if props[i].1.Null? { return Err; }
        assert props[..i + 1][..i] == props[..i];
        triples := triples + [PropTriple(subject, props[i])];
      }
      assert props[..|props|] == props;
      return Ok(());
    }

    method PushLabels(v: Var, labels: seq<string>)
      modifies this`triples
      ensures triples == old(triples) + LabelTriples(v, labels)
    {
      for i := 0 to |labels|
        invariant triples == old(triples) + LabelTriples(v, labels[..i])
      {
        assert labels[..i + 1][..i] == labels[..i];
        triples := triples + [LabelTriple(v, labels[i])];
      }
      assert labels[..|labels|] == labels;
    }

    method LowerNodePattern(node: NodePattern) returns (r: Result<Var>)
      requires NamesThemselves()
      modifies this`nodeVars, this`triples, this`counter
      ensures NamesThemselves()
      ensures r == if NodeAccepted(node) then Ok(NameOr(node.variable, "node", old(counter))) else Err
      ensures r.Ok? ==> triples == old(triples) + NodeTriples(r.value, node)
      ensures counter == old(counter) + Taken(node.variable.None?)
      ensures r.Ok? ==> nodeVars.Keys == old(nodeVars.Keys) + match node.variable case Some(name) => {name} case None => {}
    {
      var v;
      match node.variable {
        case Some(name) =>
          var got := NodeVar(name);
          if got.Err? { return Err; }
          v := got.value;
        case None =>
          v := FreshVar("node");
      }
      PushLabels(v, node.labels);
      var pushed := PushProperties(V(v), node.properties);
      if pushed.Err? { return Err; }
      return Ok(v);
    }

    method LowerRelPattern(rel: RelPattern, from: Var, to: Var) returns (r: Result<()>)
      modifies this`relVars, this`relEndpoints, this`triples, this`paths, this`counter
      ensures r.Ok? <==> RelAccepted(rel)
      ensures r.Ok? ==> triples == old(triples) + RelTriples(rel, from, to, NameOr(rel.variable, "rel", old(counter)))
      ensures r.Ok? ==> paths == old(paths) + RelPaths(rel, from, to)
      ensures r.Ok? ==> counter == old(counter) + Taken(TakesRelName(rel))
      ensures r.Ok? ==> relVars == BindRel(old(relVars), rel, NameOr(rel.variable, "rel", old(counter)))
      ensures r.Ok? ==> relEndpoints == BindEnds(old(relEndpoints), rel, from, to)
    {
      var (subject, object_) := Ends(rel, from, to);
      if rel.varLength.Some? {
        var bounds := rel.varLength.value;
        if rel.variable.Some? || rel.properties != [] || rel.relType.None? || bounds.max.Some? { return Err; }
        if bounds.min.Some? && bounds.min.value > 1 { return Err; }
        paths := paths + [Path(subject, bounds.min == Some(0), RelIri(rel.relType.value), object_)];
        return Ok(());
      }
      var predicate_: TermPattern;
      if rel.relType.Some? {
        predicate_ := C(RelIri(rel.relType.value));
      } else {
        match rel.variable {
          case Some(name) =>
            if !IsVariableName(name) { return Err; }
            predicate_ := V(name);
          case None =>
            var name := FreshVar("rel");
            predicate_ := V(name);
        }
      }
      if rel.variable.Some? {
        relVars := relVars[rel.variable.value := if rel.relType.Some? then Const(RelIri(rel.relType.value)) else ByVar(predicate_.name)];
        relEndpoints := relEndpoints[rel.variable.value := (subject, object_)];
      }
      triples := triples + [TP(V(subject), predicate_, V(object_))];
      r := PushProperties(Q(V(subject), predicate_, V(object_)), rel.properties);
    }

    /** Lowers a MATCH pattern into an empty context; fails exactly on the patterns
        that are not accepted. */
    method LowerPattern(p: Pattern) returns (r: Result<()>)
      requires nodeVars == map[] && relVars == map[] && relEndpoints == map[] && triples == [] && paths == []
      modifies this`nodeVars, this`relVars, this`relEndpoints, this`triples, this`paths, this`counter
      ensures NamesThemselves()
      ensures r.Ok? <==> Accepted(p)
      ensures r.Ok? ==> triples == PatternTriples(p, old(counter), |p.hops|)
      ensures r.Ok? ==> paths == PatternPaths(p, old(counter), |p.hops|)
      ensures r.Ok? ==> nodeVars.Keys == NodeNames(p, |p.hops|)
      ensures r.Ok? ==> relVars == RelBindings(p, old(counter), |p.hops|)
      ensures r.Ok? ==> relEndpoints == RelEnds(p, old(counter), |p.hops|)
      ensures r.Ok? ==> counter == CounterAfter(p, old(counter), |p.hops|)
    {
      hide NodeTriples, RelTriples, RelPaths, BindRel, BindEnds, FreshName, NodeAccepted, RelAccepted, TakesRelName, IsVariableName, Taken;
      ghost var c := counter;
      var first := LowerNodePattern(p.start);
      if first.Err? { return Err; }
      var prev := first.value;
      for n := 0 to |p.hops|
        invariant NamesThemselves()
        invariant NodeAccepted(p.start) && forall i :: 0 <= i < n ==> NodeAccepted(p.hops[i].node) && RelAccepted(p.hops[i].rel)
        invariant prev == NodeVarOf(p, c, n) && counter == CounterAfter(p, c, n)
        invariant triples == PatternTriples(p, c, n) && paths == PatternPaths(p, c, n)
        invariant nodeVars.Keys == NodeNames(p, n)
        invariant relVars == RelBindings(p, c, n) && relEndpoints == RelEnds(p, c, n)
      {
        var next := LowerNodePattern(p.hops[n].node);
        if next.Err? { return Err; }
        var done := LowerRelPattern(p.hops[n].rel, prev, next.value);
        if done.Err? { return Err; }
        prev := next.value;
      }
      return Ok(());
    }

    // ---- Expressions ----

    /** The variable for a property is always called after the node and the property. */
    ghost predicate PropsNamed()
      reads this`propVars
    {
      forall k :: k in propVars ==> propVars[k] == PropVar(k)
    }

    ghost function Names(): Scope
      reads this`nodeVars, this`relVars
    {
      Scope(nodeVars.Keys, relVars)
    }

    method LowerVariableRef(name: string) returns (r: Result<SExpr>)
      requires NamesThemselves()
      ensures r == if ExprAccepted(Names(), Variable(name)) then Ok(VariableRef(Names(), name)) else Err
    {
      if name in nodeVars { return Ok(EVar(nodeVars[name])); }
      if name in relVars {
        match relVars[name] {
          case ByVar(v) => return Ok(EVar(v));
          case Const(n) => return Ok(EIri(n));
        }
      }
      return Err;
    }

    method LowerPropertyRef(base: Expr, prop: string) returns (r: Result<SExpr>)
      requires NamesThemselves() && PropsNamed()
      modifies this`propVars, this`triples
      ensures PropsNamed()
      ensures r == if ExprAccepted(Names(), Property(base, prop)) then Ok(EVar(PropVar(Key(base.name, prop)))) else Err
      ensures r.Ok? ==> propVars.Keys == old(propVars.Keys) + {Key(base.name, prop)}
      ensures r.Ok? ==> triples == old(triples) + if Key(base.name, prop) in old(propVars) then [] else [ReadTriple(Key(base.name, prop))]
    {
      if !base.Variable? { return Err; }
      if base.name in relVars { return Err; }
      if base.name !in nodeVars { return Err; }
      var key := Key(base.name, prop);
      if key in propVars {
        assert triples == triples + [];
        return Ok(EVar(propVars[key]));
      }
      var v := PropVar(key);
      triples := triples + [TP(V(nodeVars[base.name]), C(PropIri(prop)), V(v))];
      propVars := propVars[key := v];
      return Ok(EVar(v));
    }

    /** Lowers an expression, pushing one triple for each property not read before. */
    method LowerExpr(e: Expr) returns (r: Result<SExpr>)
      requires NamesThemselves() && PropsNamed()
      modifies this`propVars, this`triples
      ensures PropsNamed()
      ensures r == if ExprAccepted(Names(), e) then Ok(LoweredExpr(Names(), e)) else Err
      ensures r.Ok? ==> propVars.Keys == old(propVars.Keys) + ToSet(Reads(e))
      ensures r.Ok? ==> triples == old(triples) + ReadTriples(NewReads(old(propVars.Keys), Reads(e)))
      decreases e
    {
      hide ReadTriples, NewReads, ToSet, PropVar, VariableRef, LoweredBinary, ReadTriple;
      NoReads(propVars.Keys);
      match e {
        case Variable(name) =>
          r := LowerVariableRef(name);
        case Property(base, prop) =>
          r := LowerPropertyRef(base, prop);
          if r.Ok? { OneRead(old(propVars.Keys), Key(base.name, prop)); }
        case Lit(l) =>
          r := if l.Null? then Err else Ok(ELit(l));
        case Binary(op, a, b) =>
          var left := LowerExpr(a);
          if left.Err? { return Err; }
          var right := LowerExpr(b);
          if right.Err? { return Err; }
          r := Ok(LoweredBinary(op, left.value, right.value));
          ReadsCompose(old(propVars.Keys), Reads(a), Reads(b));
        case Not(a) =>
          var inner := LowerExpr(a);
          if inner.Err? { return Err; }
          r := Ok(ENot(inner.value));
        case Neg(a) =>
          var inner := LowerExpr(a);
          if inner.Err? { return Err; }
          r := Ok(ENeg(inner.value));
      }
    }

    method LowerWhere(where_: Option<Expr>) returns (r: Result<Option<SExpr>>)
      requires NamesThemselves() && PropsNamed()
      modifies this`propVars, this`triples
      ensures PropsNamed()
      ensures r == if !WhereAccepted(Names(), where_) then Err
                   else Ok(match where_ case Some(e) => Some(LoweredExpr(Names(), e)) case None => None)
      ensures r.Ok? ==> propVars.Keys == old(propVars.Keys) + ToSet(WhereReads(where_))
      ensures r.Ok? ==> triples == old(triples) + ReadTriples(NewReads(old(propVars.Keys), WhereReads(where_)))
    {
      match where_ {
        case Some(e) =>
          var lowered := LowerExpr(e);
          if lowered.Err? { return Err; }
          return Ok(Some(lowered.value));
        case None =>
          return Ok(None);
      }
    }

    // ---- Read queries ----

    method LowerReturnItem(item: ReturnItem) returns (r: Result<(Var, Option<SExpr>)>)
      requires NamesThemselves() && PropsNamed()
      modifies this`propVars, this`triples
      ensures PropsNamed()
      ensures r == if !ItemAccepted(Names(), item) then Err
                   else Ok((Column(item).value, if NeedsExtend(Names(), item) then Some(LoweredExpr(Names(), item.expr)) else None))
      ensures r.Ok? ==> propVars.Keys == old(propVars.Keys) + ToSet(Reads(item.expr))
      ensures r.Ok? ==> triples == old(triples) + ReadTriples(NewReads(old(propVars.Keys), Reads(item.expr)))
    {
      var lowered := LowerExpr(item.expr);
      if lowered.Err? { return Err; }
      var column := Column(item);
      if column.None? || !IsVariableName(column.value) { return Err; }
      if lowered.value == EVar(column.value) { return Ok((column.value, None)); }
      return Ok((column.value, Some(lowered.value)));
    }

    /** The columns of RETURN and the expressions some of them need. */
    method LowerItems(items: seq<ReturnItem>) returns (r: Result<(seq<Var>, seq<(Var, SExpr)>)>)
      requires NamesThemselves() && PropsNamed()
      modifies this`propVars, this`triples
      ensures PropsNamed()
      ensures r == if !ItemsAccepted(Names(), items) then Err else Ok((Columns(items), Extensions(Names(), items)))
      ensures r.Ok? ==> propVars.Keys == old(propVars.Keys) + ToSet(ItemReads(items))
      ensures r.Ok? ==> triples == old(triples) + ReadTriples(NewReads(old(propVars.Keys), ItemReads(items)))
    {
      hide ExprAccepted, IsVariableName, NeedsExtend, ReadTriples, NewReads, Column;
      NoReads(propVars.Keys);
      var columns, extensions := [], [];
      for i := 0 to |items|
        invariant PropsNamed() && ItemsAccepted(Names(), items[..i])
        invariant columns == Columns(items[..i]) && extensions == Extensions(Names(), items[..i])
        invariant propVars.Keys == old(propVars.Keys) + ToSet(ItemReads(items[..i]))
        invariant triples == old(triples) + ReadTriples(NewReads(old(propVars.Keys), ItemReads(items[..i])))
      {
        var lowered := LowerReturnItem(items[i]);
        if lowered.Err? { return Err; }
        ReadsCompose(old(propVars.Keys), ItemReads(items[..i]), Reads(items[i].expr));
        assert items[..i + 1][..i] == items[..i];
        columns := columns + [lowered.value.0];
        if lowered.value.1.Some? { extensions := extensions + [(lowered.value.0, lowered.value.1.value)]; }
      }
      assert items[..|items|] == items;
      return Ok((columns, extensions));
    }

    method LowerOrder(keys: seq<OrderItem>) returns (r: Result<seq<OrderKey>>)
      requires NamesThemselves() && PropsNamed()
      modifies this`propVars, this`triples
      ensures PropsNamed()
      ensures r == if !KeysAccepted(Names(), keys) then Err else Ok(LoweredKeys(Names(), keys))
      ensures r.Ok? ==> propVars.Keys == old(propVars.Keys) + ToSet(KeyReads(keys))
      ensures r.Ok? ==> triples == old(triples) + ReadTriples(NewReads(old(propVars.Keys), KeyReads(keys)))
    {
      hide ExprAccepted, LoweredExpr, ReadTriples, NewReads, ToSet;
      NoReads(propVars.Keys);
      var lowered := [];
      for i := 0 to |keys|
        invariant PropsNamed() && KeysAccepted(Names(), keys[..i])
        invariant lowered == LoweredKeys(Names(), keys[..i])
        invariant propVars.Keys == old(propVars.Keys) + ToSet(KeyReads(keys[..i]))
        invariant triples == old(triples) + ReadTriples(NewReads(old(propVars.Keys), KeyReads(keys[..i])))
      {
        var one := LowerExpr(keys[i].expr);
        if one.Err? { return Err; }
        ReadsCompose(old(propVars.Keys), KeyReads(keys[..i]), Reads(keys[i].expr));
        assert keys[..i + 1][..i] == keys[..i];
        lowered := lowered + [OrderKey(one.value, keys[i].descending)];
      }
      assert keys[..|keys|] == keys;
      return Ok(lowered);
    }

    /** The triples and paths gathered so far, as one pattern. */
    method BuildBase() returns (gp: GraphPattern)
      ensures gp == Base(triples, paths)
    {
      gp := Bgp(triples);
      for i := 0 to |paths|
        invariant gp == Base(triples, paths[..i])
      {
        assert paths[..i + 1][..i] == paths[..i];
        gp := Join(gp, paths[i]);
      }
      assert paths[..|paths|] == paths;
    }

    /** Everything a query reads is lowered before the base is built, so that no
        property's triple comes too late. */
    method LowerQuery(q: Query) returns (r: Result<GraphPattern>)
      requires nodeVars == map[] && relVars == map[] && relEndpoints == map[] && propVars == map[]
      requires triples == [] && paths == [] && counter == 0
      modifies this
      ensures r == if QueryAccepted(q) then Ok(QueryPattern(q)) else Err
    {
      hide PatternTriples, PatternPaths, RelBindings, NodeNames, RelEnds, Accepted, WhereAccepted, ItemsAccepted, KeysAccepted,
           ReadTriples, NewReads, LoweredKeys, Extensions, Columns, CounterAfter, WhereReads, ItemReads, KeyReads, Base, ToSet;
      assert propVars.Keys == {};
      var matched := LowerPattern(q.pattern);
      if matched.Err? { return Err; }
      assert Names() == ScopeOf(q.pattern, 0);
      ghost var ts := triples;
      var where_ := LowerWhere(q.where_);
      if where_.Err? { return Err; }
      var items := LowerItems(q.items);
      if items.Err? { return Err; }
      var order := LowerOrder(q.orderBy);
      if order.Err? { return Err; }
      assert triples == ts + ReadTriples(NewReads({}, QueryReads(q))) by { QueryTriples(q); }
      var gp := BuildBase();
      if where_.value.Some? { gp := Filter(where_.value.value, gp); }
      FilteredIs(Names(), Base(triples, paths), q.where_);
      assert gp == Selection(q.pattern, 0, q.where_, QueryReads(q));
      gp := AddExtensions(gp, items.value.1);
      if order.value != [] { gp := OrderBy(gp, order.value); }
      gp := Project(gp, items.value.0);
      if q.distinct { gp := Distinct(gp); }
      if q.skip.Some? || q.limit.Some? { gp := Slice(gp, if q.skip.Some? then q.skip.value else 0, q.limit); }
      return Ok(gp);
    }

    static method AddExtensions(gp: GraphPattern, extensions: seq<(Var, SExpr)>) returns (r: GraphPattern)
      ensures r == ExtendAll(gp, extensions)
    {
      r := gp;
      for i := 0 to |extensions|
        invariant r == ExtendAll(gp, extensions[..i])
      {
        assert extensions[..i + 1][..i] == extensions[..i];
        r := Extend(r, extensions[i].0, extensions[i].1);
      }
      assert extensions[..|extensions|] == extensions;
    }

    // ---- Write statements ----

    method LowerSetProperty(v: string, prop: string, value: Expr, ghost m: MatchBase, base: GraphPattern) returns (r: Result<Update>)
      requires NamesThemselves() && PropsNamed() && m.scope == Names() && m.base == base
      modifies this`propVars, this`triples, this`counter
      ensures PropsNamed()
      ensures r == if WriteAccepted(m, SetProperty(v, prop, value)) then Ok(SetPropertyOp(m, v, prop, value, old(counter))) else Err
      ensures r.Ok? ==> counter == old(counter) + 2
    {
      hide FreshName, LoweredExpr, ExprAccepted, ReadTriples, NewReads;
      if v !in nodeVars { return Err; }
      var node := nodeVars[v];
      var old_ := FreshVar("set_old");
      var withOld := LeftJoin(base, Bgp([PropPattern(node, prop, old_)]));
      var lowered := LowerExpr(value);
      if lowered.Err? { return Err; }
      var new_ := FreshVar("set_val");
      return Ok(DeleteInsert([PropPattern(node, prop, old_)], [PropPattern(node, prop, new_)], Extend(withOld, new_, lowered.value)));
    }

    method LowerDelete(names: seq<string>, ghost m: MatchBase, base: GraphPattern) returns (r: Result<seq<Update>>)
      requires NamesThemselves() && m.scope == Names() && m.base == base && m.ends == relEndpoints && relEndpoints.Keys == relVars.Keys
      modifies this`counter
      ensures r == if DeleteAccepted(m, names) then Ok(DeleteOps(m, names, old(counter))) else Err
      ensures r.Ok? ==> counter == DeleteCounter(m, names, old(counter))
    {
      hide FreshName, SubjectSide, ObjectSide, DeleteEdgeOp;
      var ops := [];
      for i := 0 to |names|
        invariant DeleteAccepted(m, names[..i])
        invariant ops == DeleteOps(m, names[..i], old(counter)) && counter == DeleteCounter(m, names[..i], old(counter))
      {
        assert names[..i + 1][..i] == names[..i];
        if names[i] in relEndpoints {
          var op := LowerDeleteEdge(names[i], m, base);
          ops := ops + [op];
        } else {
          if names[i] !in nodeVars { return Err; }
          var subjects, objects := LowerDeleteNode(nodeVars[names[i]], base);
          ops := ops + [subjects, objects];
        }
      }
      assert names[..|names|] == names;
      return Ok(ops);
    }

    method LowerDeleteEdge(name: string, ghost m: MatchBase, base: GraphPattern) returns (op: Update)
      requires name in relEndpoints && name in relVars && m.scope.rels == relVars && m.ends == relEndpoints && m.base == base
      ensures op == DeleteEdgeOp(m, name)
    {
      var (s, o) := relEndpoints[name];
      var predicate_;
      match relVars[name] {
        case ByVar(v) => predicate_ := V(v);
        case Const(n) => predicate_ := C(n);
      }
      op := DeleteInsert([TP(V(s), predicate_, V(o))], [], base);
    }

    method LowerDeleteNode(v: Var, base: GraphPattern) returns (subjects: Update, objects: Update)
      modifies this`counter
      ensures subjects == SubjectSide(base, v, old(counter)) && objects == ObjectSide(base, v, old(counter))
      ensures counter == old(counter) + 4
    {
      var p := FreshVar("del_p");
      var o := FreshVar("del_o");
      subjects := DeleteInsert([TP(V(v), V(p), V(o))], [], Join(base, Bgp([TP(V(v), V(p), V(o))])));
      var s := FreshVar("del_s");
      var p2 := FreshVar("del_p2");
      objects := DeleteInsert([TP(V(s), V(p2), V(v))], [], Join(base, Bgp([TP(V(s), V(p2), V(v))])));
    }

    method LowerWrite(w: WriteClause, ghost m: MatchBase, base: GraphPattern) returns (r: Result<seq<Update>>)
      requires NamesThemselves() && PropsNamed()
      requires m.scope == Names() && m.base == base && m.ends == relEndpoints && relEndpoints.Keys == relVars.Keys
      modifies this`propVars, this`triples, this`counter
      ensures PropsNamed()
      ensures r == if WriteAccepted(m, w) then Ok(WriteOps(m, w, old(counter))) else Err
      ensures r.Ok? ==> counter == CounterAfterWrite(m, w, old(counter))
    {
      hide SetPropertyOp, DeleteOps, DeleteAccepted, DeleteCounter, FreshName, ExprAccepted;
      match w {
        case SetProperty(v, prop, value) =>
          var op := LowerSetProperty(v, prop, value, m, base);
          if op.Err? { return Err; }
          return Ok([op.value]);
        case SetLabel(v, name) =>
          if v !in nodeVars { return Err; }
          return Ok([DeleteInsert([], [LabelTriple(nodeVars[v], name)], base)]);
        case Delete(names, _) =>
          r := LowerDelete(names, m, base);
        case RemoveProperty(v, prop) =>
          if v !in nodeVars { return Err; }
          var old_ := FreshVar("remove_old");
          var t := PropPattern(nodeVars[v], prop, old_);
          return Ok([DeleteInsert([t], [], LeftJoin(base, Bgp([t])))]);
        case RemoveLabel(v, name) =>
          if v !in nodeVars { return Err; }
          return Ok([DeleteInsert([LabelTriple(nodeVars[v], name)], [], base)]);
      }
    }

    /** The base is copied once, before any write clause is lowered. */
    method LowerStatement(s: Statement) returns (r: Result<seq<Update>>)
      requires nodeVars == map[] && relVars == map[] && relEndpoints == map[] && propVars == map[]
      requires triples == [] && paths == [] && counter == 0
      modifies this
      ensures r == if StatementAccepted(s) then Ok(StatementOps(s)) else Err
    {
      hide WriteAccepted, WriteOps, CounterAfterWrite, MatchOf, MatchAccepted;
      ghost var m;
      var base;
      base, r, m := LowerMatch(s);
      if r.Err? { return Err; }
      var ops := [];
      for i := 0 to |s.writes|
        invariant NamesThemselves() && PropsNamed()
        invariant m.scope == Names() && m.base == base && m.ends == relEndpoints && relEndpoints.Keys == relVars.Keys
        invariant WritesAccepted(m, s.writes[..i])
        invariant ops == WritesOps(m, s.writes[..i]) && counter == CounterAfterWrites(m, s.writes[..i])
      {
        assert s.writes[..i + 1][..i] == s.writes[..i];
        var more := LowerWrite(s.writes[i], m, base);
        if more.Err? { return Err; }
        ops := ops + more.value;
      }
      assert s.writes[..|s.writes|] == s.writes;
      return Ok(ops);
    }

    method LowerMatch(s: Statement) returns (base: GraphPattern, r: Result<seq<Update>>, ghost m: MatchBase)
      requires nodeVars == map[] && relVars == map[] && relEndpoints == map[] && propVars == map[]
      requires triples == [] && paths == [] && counter == 0
      modifies this
      ensures r.Ok? <==> MatchAccepted(s)
      ensures r.Ok? ==> m == MatchOf(s) && NamesThemselves() && PropsNamed() && counter == m.counter
      ensures r.Ok? ==> m.scope == Names() && m.base == base && m.ends == relEndpoints && relEndpoints.Keys == relVars.Keys
    {
      hide PatternTriples, PatternPaths, RelBindings, NodeNames, RelEnds, Accepted, WhereAccepted, ReadTriples, NewReads, CounterAfter;
      base, m := Bgp([]), MatchBase(Scope({}, map[]), map[], Bgp([]), 0);
      assert propVars.Keys == {};
      if s.pattern.Some? {
        var matched := LowerPattern(s.pattern.value);
        if matched.Err? { return base, Err, m; }
        EndsAndBindings(s.pattern.value, 0, |s.pattern.value.hops|);
        assert Names() == ScopeOf(s.pattern.value, 0);
      } else {
        assert Names() == Scope({}, map[]);
      }
      var where_ := LowerWhere(s.where_);
      if where_.Err? { return base, Err, m; }
      assert triples == (if s.pattern.Some? then PatternTriples(s.pattern.value, 0, |s.pattern.value.hops|) else [])
                        + ReadTriples(NewReads({}, WhereReads(s.where_)));
      base := BuildBase();
      FilteredIs(Names(), base, s.where_);
      if where_.value.Some? { base := Filter(where_.value.value, base); }
      if s.pattern.None? { NoNamesNoReads(s.where_); }
      m := MatchOf(s);
      return base, Ok([]), m;
    }
  }
}
