/** What a pattern with a WHERE means: its homomorphic matches, each with one stored
    value for every property read, on which the condition is true. */
module WhereMeaning {
  import opened Options
  import opened CypherSyntax
  import opened Sparql
  import opened CypherMapping
  import opened MatchMeaning
  import opened ScopeSafety
  import opened Numerals
  import opened ExprMeaning

  function ReadNames(keys: seq<Key>): set<Var> { set k | k in keys :: PropVar(k) }

  /** The binding gives the property one of the values the store holds. */
  ghost predicate ValueStored(store: Store, m: Binding, k: Key) {
    k.node in m && PropVar(k) in m && Triple(m[k.node], PropIri(k.prop), m[PropVar(k)]) in store
  }

  ghost predicate FilterHolds(ev: Evaluator, sc: Scope, where_: Option<Expr>, m: Binding)
    requires WhereAccepted(sc, where_)
  {
    where_.Some? ==> ev(LoweredExpr(sc, where_.value), m) == Some(Value(Bool(true)))
  }

  // ---- Matches of a pattern with a WHERE ----

  ghost predicate TrueOn(ops: Operators, p: Pattern, where_: Option<Expr>, a: Assignment, vals: Values)
    requires Shaped(p, a)
  {
    where_.Some? ==> CypherValue(ops, p, a, vals, where_.value) == Some(Value(Bool(true)))
  }

  /** `vals` picks for each property read one of the values its node has. */
  ghost predicate Picks(store: Store, keys: seq<Key>, env: Binding, vals: Values) {
    && vals.Keys == ToSet(keys)
    && forall k :: k in keys ==> k.node in env && Triple(env[k.node], PropIri(k.prop), vals[k]) in store
  }

  ghost predicate Selected(store: Store, ops: Operators, p: Pattern, where_: Option<Expr>, keys: seq<Key>, a: Assignment, env: Binding, vals: Values) {
    && Shaped(p, a) && Homomorphism(store, p, a, env)
    && Picks(store, keys, env, vals)
    && TrueOn(ops, p, where_, a, vals)
  }

  /** Parts of the pattern and properties read that share a variable have one value. */
  ghost predicate AllAgree(p: Pattern, a: Assignment, vals: Values) {
    && Agrees(p, 0, a)
    && (forall j, k :: j in vals && k in vals && PropVar(j) == PropVar(k) ==> vals[j] == vals[k])
    && (forall k, i: nat :: k in vals && i <= |p.hops| && NodeVarOf(p, 0, i) == PropVar(k) ==> a.nodes[i] == vals[k])
    && (forall k, i: nat :: k in vals && i < |p.hops| && RelIsRead(p, i, k) ==> a.preds[i] == vals[k])
  }

  predicate RelIsRead(p: Pattern, i: nat, k: Key)
    requires i < |p.hops|
  {
    BindsPredicate(p.hops[i].rel) && RelVarOf(p, 0, i) == PropVar(k)
  }

  /** The properties read are of the pattern's nodes and include those of the WHERE. */
  predicate ReadsOf(p: Pattern, where_: Option<Expr>, keys: seq<Key>) {
    && (forall k :: k in keys ==> k.node in NodeNames(p, |p.hops|))
    && (forall k :: k in WhereReads(where_) ==> k in keys)
  }

  // ---- Solutions of a selection ----

  lemma {:induction false} NewReadsAre(keys: seq<Key>, k: Key)
    ensures k in NewReads({}, keys) <==> k in keys
    decreases |keys|
  {
    if keys != [] {
      NewReadsAre(keys[..|keys| - 1], k);
      assert keys == keys[..|keys| - 1] + [keys[|keys| - 1]];
    }
  }

  lemma {:induction false} ReadTriplesAre(keys: seq<Key>, t: TriplePattern)
    ensures t in ReadTriples(keys) <==> exists k :: k in keys && t == ReadTriple(k)
    decreases |keys|
  {
    if keys != [] {
      ReadTriplesAre(keys[..|keys| - 1], t);
      assert keys == keys[..|keys| - 1] + [keys[|keys| - 1]];
    }
  }

  lemma ReadMatches(store: Store, m: Binding, k: Key)
    ensures Matches(store, ReadTriple(k), m) <==> ValueStored(store, m, k)
  {
    hide PropIri, PropVar;
  }

  lemma ReadsHold(store: Store, m: Binding, keys: seq<Key>)
    ensures BaseHolds(store, ReadTriples(NewReads({}, keys)), [], m) <==> forall k :: k in keys ==> ValueStored(store, m, k)
  {
    hide Matches, ValueStored, ReadTriple, NewReads, ReadTriples;
    var ts := ReadTriples(NewReads({}, keys));
    if forall k :: k in keys ==> ValueStored(store, m, k) {
      forall t | t in ts ensures Matches(store, t, m) {
        ReadTriplesAre(NewReads({}, keys), t);
        var k :| k in NewReads({}, keys) && t == ReadTriple(k);
        NewReadsAre(keys, k);
        ReadMatches(store, m, k);
      }
    }
    if forall t :: t in ts ==> Matches(store, t, m) {
      forall k | k in keys ensures ValueStored(store, m, k) {
        NewReadsAre(keys, k);
        ReadTriplesAre(NewReads({}, keys), ReadTriple(k));
        ReadMatches(store, m, k);
      }
    }
  }

  /** Its solutions bind just the variables of the pattern and the reads, and under
      them everything asked for holds. */
  lemma SelectionHolds(store: Store, ev: Evaluator, p: Pattern, where_: Option<Expr>, keys: seq<Key>, m: Binding)
    requires Accepted(p) && WhereAccepted(ScopeOf(p, 0), where_)
    ensures Solution(store, ev, Selection(p, 0, where_, keys), m)
            <==> && m.Keys == PatternScope(p) + ReadVars(keys)
                 && BaseHolds(store, PatternTriples(p, 0, |p.hops|), PatternPaths(p, 0, |p.hops|), m)
                 && (forall k :: k in keys ==> ValueStored(store, m, k))
                 && FilterHolds(ev, ScopeOf(p, 0), where_, m)
  {
    hide PatternTriples, PatternPaths, NewReads, ReadTriples, Slots, ReadVars, ScopeOf, LoweredExpr, Accepted, AllVars, PathVars, BaseHolds, ValueStored, Base;
    var n := |p.hops|;
    var ts, rs, paths := PatternTriples(p, 0, n), ReadTriples(NewReads({}, keys)), PatternPaths(p, 0, n);
    PatternVars(p, 0, n);
    AllVarsOfConcat(ts, rs);
    ReadTripleVars(NewReads({}, keys));
    NewReadsKeepAll(keys);
    BaseHoldsOfConcat(store, ts, rs, paths, [], m);
    assert paths + [] == paths;
    ReadsHold(store, m, keys);
    SelectionIsFiltered(p, where_, keys);
    var base := Base(ts + rs, paths);
    if Solution(store, ev, base, m) { BaseSound(store, ev, ts + rs, paths, m); }
    if m.Keys == PatternScope(p) + ReadVars(keys) && BaseHolds(store, ts + rs, paths, m) { BaseComplete(store, ev, ts + rs, paths, m); }
  }

  lemma SelectionIsFiltered(p: Pattern, where_: Option<Expr>, keys: seq<Key>)
    requires WhereAccepted(ScopeOf(p, 0), where_)
    ensures
      var base := Base(PatternTriples(p, 0, |p.hops|) + ReadTriples(NewReads({}, keys)), PatternPaths(p, 0, |p.hops|));
      Selection(p, 0, where_, keys) == if where_.Some? then Filter(LoweredExpr(ScopeOf(p, 0), where_.value), base) else base
  {
  }

  // ---- Every solution is a match with values ----

  lemma LoneSlot(p: Pattern, keys: seq<Key>)
    requires !Anchored(p) && keys != [] && forall k :: k in keys ==> k.node in NodeNames(p, |p.hops|)
    ensures Slots(p, 0, |p.hops|) == {keys[0].node} == {NodeVarOf(p, 0, 0)}
    ensures forall k :: k in keys ==> k.node == keys[0].node
  {
    assert keys[0] in keys;
    SlotsOfLoneNode(p, keys[0].node);
  }

  lemma SlotsAreBound(p: Pattern, keys: seq<Key>)
    requires Anchored(p) || keys != []
    requires forall k :: k in keys ==> k.node in NodeNames(p, |p.hops|)
    ensures PatternScope(p) + ReadVars(keys) == Slots(p, 0, |p.hops|) + ReadNames(keys)
  {
    hide Slots, NodeNames, ReadVars, PropVar;
    NodeNamesAreSlots(p, |p.hops|);
    if !Anchored(p) { LoneSlot(p, keys); }
    forall v ensures v in PatternScope(p) + ReadVars(keys) <==> v in Slots(p, 0, |p.hops|) + ReadNames(keys) {
      ReadVarsAre(keys, v);
      if v in ReadNames(keys) {
        var k :| k in keys && v == PropVar(k);
        assert v in KeyNames(k);
      }
      if !Anchored(p) && v in Slots(p, 0, |p.hops|) { assert v in KeyNames(keys[0]) && keys[0] in keys; }
    }
  }

  function ValuesIn(keys: seq<Key>, m: Binding): Values
    requires ReadNames(keys) <= m.Keys
  {
    map k | k in keys :: m[PropVar(k)]
  }

  /** Under a binding that reads so, the filter is the condition. */
  lemma FilterIsCondition(ev: Evaluator, ops: Operators, p: Pattern, where_: Option<Expr>, m: Binding, a: Assignment, vals: Values)
    requires Evaluates(ev, ops) && Accepted(p) && WhereAccepted(ScopeOf(p, 0), where_) && Shaped(p, a) && ReadsAs(p, m, a, vals)
    requires forall k :: k in WhereReads(where_) ==> k in vals
    ensures FilterHolds(ev, ScopeOf(p, 0), where_, m) <==> TrueOn(ops, p, where_, a, vals)
  {
    hide Accepted, LoweredExpr, ExprAccepted, CypherValue, SparqlValue, ReadsAs;
    if where_.Some? { ExprKeepsMeaning(ops, p, m, a, vals, where_.value); }
  }

  lemma SolutionReads(p: Pattern, keys: seq<Key>, m: Binding)
    requires Slots(p, 0, |p.hops|) <= m.Keys && ReadNames(keys) <= m.Keys
    ensures forall i: nat :: i <= |p.hops| ==> NodeVarOf(p, 0, i) in m && m[NodeVarOf(p, 0, i)] == Read(p, 0, m).nodes[i]
    ensures forall i: nat :: i < |p.hops| ==> TypeReadsAs(p, m, Read(p, 0, m), i)
    ensures ReadsAs(p, m, Read(p, 0, m), ValuesIn(keys, m)) && AllAgree(p, Read(p, 0, m), ValuesIn(keys, m))
  {
    hide NodeVarOf, RelVarOf, Slots, PropVar, RelIri, Agrees;
    var n, a := |p.hops|, Read(p, 0, m);
    ReadAgrees(p, 0, m);
    forall i: nat | i <= n ensures NodeVarOf(p, 0, i) in m && m[NodeVarOf(p, 0, i)] == a.nodes[i] { SlotsHave(p, 0, n, i); }
    forall i: nat | i < n ensures TypeReadsAs(p, m, a, i) { SlotsHave(p, 0, n, i); }
    forall k, i: nat | k in keys && i < n && RelIsRead(p, i, k) ensures a.preds[i] == m[PropVar(k)] { assert TypeReadsAs(p, m, a, i); }
  }

  /** Every solution is a match with values, and shared variables agree, whatever the
      names are. */
  lemma SolutionIsSelected(store: Store, ev: Evaluator, ops: Operators, p: Pattern, where_: Option<Expr>, keys: seq<Key>, m: Binding)
    requires Accepted(p) && WhereAccepted(ScopeOf(p, 0), where_) && ReadsOf(p, where_, keys) && Evaluates(ev, ops)
    requires Anchored(p) || keys != []
    requires Solution(store, ev, Selection(p, 0, where_, keys), m)
    ensures Slots(p, 0, |p.hops|) <= m.Keys && ReadNames(keys) <= m.Keys
    ensures Selected(store, ops, p, where_, keys, Read(p, 0, m), Restrict(m, UserVars(p, |p.hops|)), ValuesIn(keys, m))
    ensures ReadsAs(p, m, Read(p, 0, m), ValuesIn(keys, m)) && AllAgree(p, Read(p, 0, m), ValuesIn(keys, m))
  {
    hide Accepted, WhereAccepted, Homomorphism, Slots, UserVars, BaseHolds, PatternTriples, PatternPaths, FilterHolds, TrueOn, Solution, Selection, PropVar,
         PropIri, NodeNames, Evaluates, PatternScope, ReadVars, Anchored, AllAgree, ReadsAs;
    SelectionHolds(store, ev, p, where_, keys, m);
    SlotsAreBound(p, keys);
    NodeNamesAreUserVars(p, |p.hops|);
    if !Anchored(p) { LoneNodeIsNode(store, p, keys, m); }
    HoldingIsHomomorphism(store, p, 0, m);
    SolutionReads(p, keys, m);
    FilterIsCondition(ev, ops, p, where_, m, Read(p, 0, m), ValuesIn(keys, m));
    forall k | k in keys ensures k.node in m && Triple(m[k.node], PropIri(k.prop), m[PropVar(k)]) in store { assert ValueStored(store, m, k); }
  }

  lemma LoneNodeIsNode(store: Store, p: Pattern, keys: seq<Key>, m: Binding)
    requires !Anchored(p) && keys != [] && (forall k :: k in keys ==> k.node in NodeNames(p, |p.hops|))
    requires Slots(p, 0, |p.hops|) <= m.Keys && forall k :: k in keys ==> ValueStored(store, m, k)
    ensures IsNode(store, Read(p, 0, m).nodes[0])
  {
    var k := keys[0];
    LoneSlot(p, keys);
    assert k in keys && ValueStored(store, m, k);
    assert Triple(m[k.node], PropIri(k.prop), m[PropVar(k)]).s == m[k.node];
  }

  // ---- Every match with values that agrees is a solution ----

  function WrittenReads(keys: seq<Key>, vals: Values): Binding
    requires forall k :: k in keys ==> k in vals
  {
    if keys == [] then map[] else WrittenReads(keys[..|keys| - 1], vals)[PropVar(keys[|keys| - 1]) := vals[keys[|keys| - 1]]]
  }

  lemma {:induction false} WrittenReadsAre(keys: seq<Key>, vals: Values)
    requires (forall k :: k in keys ==> k in vals)
    requires forall j, k :: j in vals && k in vals && PropVar(j) == PropVar(k) ==> vals[j] == vals[k]
    ensures WrittenReads(keys, vals).Keys == ReadNames(keys)
    ensures forall k :: k in keys ==> WrittenReads(keys, vals)[PropVar(k)] == vals[k]
    decreases |keys|
  {
    hide PropVar;
    if keys != [] {
      var front, last := keys[..|keys| - 1], keys[|keys| - 1];
      WrittenReadsAre(front, vals);
      assert forall k :: k in keys <==> k in front || k == last by { assert keys == front + [last]; }
      assert ReadNames(keys) == ReadNames(front) + {PropVar(last)};
    }
  }

  /** The solution that belongs to a match and its values. */
  function Chosen(p: Pattern, keys: seq<Key>, a: Assignment, vals: Values): Binding
    requires Shaped(p, a) && forall k :: k in keys ==> k in vals
  {
    WrittenReads(keys, vals) + Written(p, 0, a, |p.hops|)
  }

  lemma {:induction false} SlotIsPart(p: Pattern, n: nat, v: Var)
    requires n <= |p.hops| && v in Slots(p, 0, n)
    ensures (exists i: nat :: i <= n && NodeVarOf(p, 0, i) == v) || exists i: nat :: i < n && BindsPredicate(p.hops[i].rel) && RelVarOf(p, 0, i) == v
    decreases n
  {
    hide NodeVarOf, RelVarOf, BindsPredicate;
    if v != NodeVarOf(p, 0, n) {
      var k: nat := n - 1;
      if !(BindsPredicate(p.hops[k].rel) && RelVarOf(p, 0, k) == v) { SlotIsPart(p, k, v); }
    }
  }

  /** A read that shares its variable with a part of the pattern has the part's value. */
  lemma WrittenHasRead(p: Pattern, a: Assignment, vals: Values, k: Key)
    requires AllAgree(p, a, vals) && k in vals && PropVar(k) in Slots(p, 0, |p.hops|)
    ensures PropVar(k) in Written(p, 0, a, |p.hops|) && Written(p, 0, a, |p.hops|)[PropVar(k)] == vals[k]
  {
    hide NodeVarOf, RelVarOf, Slots, Written, PropVar, Agrees;
    var n := |p.hops|;
    assert Shaped(p, a) by { AgreesShape(p, a); }
    SlotIsPart(p, n, PropVar(k));
    if i: nat :| i <= n && NodeVarOf(p, 0, i) == PropVar(k) { WrittenNode(p, 0, a, n, i); }
    else {
      var i: nat :| i < n && BindsPredicate(p.hops[i].rel) && RelVarOf(p, 0, i) == PropVar(k);
      assert RelIsRead(p, i, k);
      WrittenRel(p, 0, a, n, i);
    }
  }

  lemma AgreesShape(p: Pattern, a: Assignment)
    requires Agrees(p, 0, a)
    ensures Shaped(p, a)
  {
  }

  lemma ChosenReads(p: Pattern, keys: seq<Key>, a: Assignment, vals: Values)
    requires AllAgree(p, a, vals) && Shaped(p, a) && vals.Keys == ToSet(keys)
    ensures forall v :: v in Written(p, 0, a, |p.hops|) ==>
              v in Chosen(p, keys, a, vals) && Chosen(p, keys, a, vals)[v] == Written(p, 0, a, |p.hops|)[v]
    ensures Chosen(p, keys, a, vals).Keys == Slots(p, 0, |p.hops|) + ReadNames(keys)
    ensures forall k :: k in keys ==> Chosen(p, keys, a, vals)[PropVar(k)] == vals[k]
  {
    hide Slots, Written, PropVar;
    WrittenReadsAre(keys, vals);
    WrittenKeys(p, 0, a, |p.hops|);
    forall k | k in keys ensures Chosen(p, keys, a, vals)[PropVar(k)] == vals[k] {
      if PropVar(k) in Slots(p, 0, |p.hops|) { WrittenHasRead(p, a, vals, k); }
    }
  }

  lemma ChosenReadsAs(store: Store, p: Pattern, keys: seq<Key>, a: Assignment, env: Binding, vals: Values)
    requires Accepted(p) && Homomorphism(store, p, a, env) && AllAgree(p, a, vals) && Shaped(p, a) && vals.Keys == ToSet(keys)
    ensures ReadsAs(p, Chosen(p, keys, a, vals), a, vals)
  {
    hide NodeVarOf, RelVarOf, Slots, Written, PropVar, Chosen, RelIri, NodeMatches, Accepted, PathHolds, HasProperty;
    var n, m := |p.hops|, Chosen(p, keys, a, vals);
    ChosenReads(p, keys, a, vals);
    forall i: nat | i <= n ensures NodeVarOf(p, 0, i) in m && m[NodeVarOf(p, 0, i)] == a.nodes[i] { WrittenNode(p, 0, a, n, i); }
    forall i: nat | i < n ensures TypeReadsAs(p, m, a, i) {
      assert HopMatches(store, p, a, env, i);
      if BindsPredicate(p.hops[i].rel) { WrittenRel(p, 0, a, n, i); }
    }
  }

  lemma SelectedIsSolution(store: Store, ev: Evaluator, ops: Operators, p: Pattern, where_: Option<Expr>, keys: seq<Key>, a: Assignment, env: Binding,
                           vals: Values)
    requires Accepted(p) && WhereAccepted(ScopeOf(p, 0), where_) && ReadsOf(p, where_, keys) && Evaluates(ev, ops)
    requires Anchored(p) || keys != []
    requires Selected(store, ops, p, where_, keys, a, env, vals) && AllAgree(p, a, vals)
    ensures Shaped(p, a) && forall k :: k in keys ==> k in vals
    ensures Solution(store, ev, Selection(p, 0, where_, keys), Chosen(p, keys, a, vals))
    ensures Restrict(Chosen(p, keys, a, vals), UserVars(p, |p.hops|)) == env && ReadsAs(p, Chosen(p, keys, a, vals), a, vals)
  {
    hide Accepted, WhereAccepted, Homomorphism, Slots, UserVars, BaseHolds, PatternTriples, PatternPaths, FilterHolds, TrueOn, Solution, Selection, PropVar,
         PropIri, NodeNames, Evaluates, PatternScope, ReadVars, Anchored, Written, AllAgree, Agrees, ReadsAs, Chosen;
    var n, w, m := |p.hops|, Written(p, 0, a, |p.hops|), Chosen(p, keys, a, vals);
    assert Agrees(p, 0, a) by { PartsAgree(p, a, vals); }
    WrittenHolds(store, p, 0, a, env);
    ChosenReads(p, keys, a, vals);
    ChosenReadsAs(store, p, keys, a, env, vals);
    UserVarsAreSlots(p, 0, n);
    SlotsAreBound(p, keys);
    BaseHoldsGrows(store, p, w, m);
    NodeNamesAreUserVars(p, n);
    RestrictOfMore(w, m, UserVars(p, n));
    forall k | k in keys ensures ValueStored(store, m, k) { assert env[k.node] == m[k.node]; }
    FilterIsCondition(ev, ops, p, where_, m, a, vals);
    SelectionHolds(store, ev, p, where_, keys, m);
  }

  lemma SelectedPicks(store: Store, ops: Operators, p: Pattern, where_: Option<Expr>, keys: seq<Key>, a: Assignment, env: Binding, vals: Values)
    requires Selected(store, ops, p, where_, keys, a, env, vals)
    ensures vals.Keys == ToSet(keys)
  {
  }

  lemma PartsAgree(p: Pattern, a: Assignment, vals: Values)
    requires AllAgree(p, a, vals)
    ensures Agrees(p, 0, a)
  {
  }

  lemma RestrictOfMore(w: Binding, m: Binding, names: set<Var>)
    requires names <= w.Keys && forall v :: v in w ==> v in m && m[v] == w[v]
    ensures Restrict(m, names) == Restrict(w, names)
    ensures forall v :: v in names ==> v in Restrict(m, names) && Restrict(m, names)[v] == m[v]
  {
  }

  lemma BaseHoldsGrows(store: Store, p: Pattern, w: Binding, m: Binding)
    requires Accepted(p) && BaseHolds(store, PatternTriples(p, 0, |p.hops|), PatternPaths(p, 0, |p.hops|), w)
    requires forall v :: v in w ==> v in m && m[v] == w[v]
    ensures BaseHolds(store, PatternTriples(p, 0, |p.hops|), PatternPaths(p, 0, |p.hops|), m)
  {
    hide Accepted, PatternTriples, PatternPaths, PathHolds, Inst;
    forall t | t in PatternTriples(p, 0, |p.hops|) ensures Matches(store, t, m) {
      assert Matches(store, t, w);
      MatchesGrows(store, t, w, m);
    }
    forall q | q in PatternPaths(p, 0, |p.hops|) ensures PathMatches(store, q, m) { assert PathMatches(store, q, w); }
  }

  // ---- Both ----

  /** Some solution binds the user's names to `env` and the properties read to `vals`. */
  ghost predicate FoundWhere(store: Store, ev: Evaluator, p: Pattern, where_: Option<Expr>, keys: seq<Key>, env: Binding, vals: Values)
    requires WhereAccepted(ScopeOf(p, 0), where_)
  {
    exists m :: Solution(store, ev, Selection(p, 0, where_, keys), m) && Shows(p, keys, m, env, vals)
  }

  ghost predicate Shows(p: Pattern, keys: seq<Key>, m: Binding, env: Binding, vals: Values) {
    Restrict(m, UserVars(p, |p.hops|)) == env && ReadNames(keys) <= m.Keys && vals == ValuesIn(keys, m)
  }

  ghost predicate MatchedWhere(store: Store, ops: Operators, p: Pattern, where_: Option<Expr>, keys: seq<Key>, env: Binding, vals: Values) {
    exists a :: Selected(store, ops, p, where_, keys, a, env, vals)
  }

  /** Whatever the names are, what is found are exactly the matches with values in which
      shared variables agree. */
  lemma FoundWhereIffAgrees(store: Store, ev: Evaluator, ops: Operators, p: Pattern, where_: Option<Expr>, keys: seq<Key>, env: Binding, vals: Values)
    requires Accepted(p) && WhereAccepted(ScopeOf(p, 0), where_) && ReadsOf(p, where_, keys) && Evaluates(ev, ops)
    requires Anchored(p) || keys != []
    ensures FoundWhere(store, ev, p, where_, keys, env, vals)
            <==> exists a :: Selected(store, ops, p, where_, keys, a, env, vals) && AllAgree(p, a, vals)
  {
    hide Accepted, WhereAccepted, ReadsOf, Evaluates, Anchored, Solution, Selection, Selected, AllAgree, Slots, Chosen, ReadsAs, UserVars;
    if FoundWhere(store, ev, p, where_, keys, env, vals) {
      var m :| Solution(store, ev, Selection(p, 0, where_, keys), m) && Shows(p, keys, m, env, vals);
      SolutionIsSelected(store, ev, ops, p, where_, keys, m);
    }
    if a :| Selected(store, ops, p, where_, keys, a, env, vals) && AllAgree(p, a, vals) {
      SelectedIsSolution(store, ev, ops, p, where_, keys, a, env, vals);
      ReadsShow(store, ops, p, where_, keys, a, env, vals);
    }
  }

  lemma ReadsShow(store: Store, ops: Operators, p: Pattern, where_: Option<Expr>, keys: seq<Key>, a: Assignment, env: Binding, vals: Values)
    requires Selected(store, ops, p, where_, keys, a, env, vals) && AllAgree(p, a, vals)
    requires Restrict(Chosen(p, keys, a, vals), UserVars(p, |p.hops|)) == env
    ensures Shows(p, keys, Chosen(p, keys, a, vals), env, vals)
  {
    hide Homomorphism, AllAgree, Chosen, TrueOn, UserVars, Slots;
    ChosenReads(p, keys, a, vals);
  }

  /** No property is read into a variable of the pattern or of another property. */
  ghost predicate ReadsApart(p: Pattern, keys: seq<Key>) {
    && (forall j, k :: j in keys && k in keys && PropVar(j) == PropVar(k) ==> j == k)
    && forall k :: k in keys ==> PropVar(k) !in UserVars(p, |p.hops|)
  }

  /** The variable of a property is never one the lowering makes up for the pattern. */
  lemma PropVarIsNotGenerated(k: Key, prefix: string, n: nat)
    requires k.node != "" && '_' !in prefix
    ensures PropVar(k) != FreshName(prefix, n)
  {
    assert PropVar(k)[|k.node|] == '_';
    DecimalReads(n);
  }

  lemma ApartAgrees(p: Pattern, keys: seq<Key>, a: Assignment, vals: Values)
    requires Accepted(p) && ReadsApart(p, keys) && vals.Keys == ToSet(keys) && Agrees(p, 0, a)
    requires forall k :: k in keys ==> k.node in NodeNames(p, |p.hops|)
    ensures AllAgree(p, a, vals)
  {
    hide Accepted, Slots, UserVars, NodeNames, FreshName, PropVar, Agrees;
    var n := |p.hops|;
    NodeNamesAreUserVars(p, n);
    AgreesShape(p, a);
    forall k | k in keys ensures PropVar(k) !in Slots(p, 0, n) {
      if PropVar(k) in Slots(p, 0, n) {
        SlotsAre(p, n, PropVar(k));
        if i :| PropVar(k) == FreshName("node", i) { PropVarIsNotGenerated(k, "node", i); }
        if i :| PropVar(k) == FreshName("rel", i) { PropVarIsNotGenerated(k, "rel", i); }
        assert false;
      }
    }
    forall i: nat | i <= n ensures NodeVarOf(p, 0, i) in Slots(p, 0, n) { SlotsHave(p, 0, n, i); }
    forall i: nat | i < n && BindsPredicate(p.hops[i].rel) ensures RelVarOf(p, 0, i) in Slots(p, 0, n) { SlotsHave(p, 0, n, i); }
  }

  /** When no name is a generated one and no property is read into another variable, the
      solutions of pattern and WHERE are exactly the homomorphic matches with one stored
      value for every property read on which the condition is true. */
  lemma WherePreservesMeaning(store: Store, ev: Evaluator, ops: Operators, p: Pattern, where_: Option<Expr>, keys: seq<Key>, env: Binding, vals: Values)
    requires Accepted(p) && WhereAccepted(ScopeOf(p, 0), where_) && ReadsOf(p, where_, keys) && Evaluates(ev, ops)
    requires (Anchored(p) || keys != []) && NoCollision(p, 0) && ReadsApart(p, keys)
    ensures FoundWhere(store, ev, p, where_, keys, env, vals) <==> MatchedWhere(store, ops, p, where_, keys, env, vals)
  {
    hide Accepted, WhereAccepted, Evaluates, Anchored, Solution, Selection, AllAgree, Agrees, NoCollision, ReadsApart, FoundWhere, TrueOn, Homomorphism;
    FoundWhereIffAgrees(store, ev, ops, p, where_, keys, env, vals);
    if a :| Selected(store, ops, p, where_, keys, a, env, vals) {
      NoCollisionAgrees(store, p, 0, a, env);
      ApartAgrees(p, keys, a, vals);
    }
  }

  /** Names without an underscore are enough for both. */
  lemma PlainReadsApart(p: Pattern, keys: seq<Key>)
    requires Accepted(p) && PlainNames(p) && forall k :: k in keys ==> k.node in NodeNames(p, |p.hops|)
    ensures NoCollision(p, 0) && ReadsApart(p, keys)
  {
    hide Accepted, UserVars, NodeNames, NoCollision, Plain, PropVar;
    PlainIsClear(p);
    ClearNamesNeverCollide(p, 0);
    NodeNamesAreUserVars(p, |p.hops|);
    forall k | k in keys ensures PropVar(k) !in UserVars(p, |p.hops|) { PropVarIsNotPlain(k); }
    forall j, k | j in keys && k in keys && PropVar(j) == PropVar(k) ensures j == k { PropVarSplits(j, k); }
  }

  // ---- A property's variable can be the user's ----

  const KNOWN_AGE: Pattern := Pattern(NodePattern(Some("n"), [], []),
                                      [Hop(RelPattern(None, Some("KNOWS"), Right, None, []), NodePattern(Some("n_age"), [], []))])

  const AGE_IS_5: Expr := Binary(Eq, Property(Variable("n"), "age"), Lit(Int(5)))

  /** MATCH (n)-[:KNOWS]->(n_age) WHERE n.age = 5: the property is read into the variable
      of the other node, so someone aged 5 who knows someone is not found, although the
      condition is true on the match. */
  lemma ReadCollidesWithName(ev: Evaluator, ops: Operators)
    requires ops.binary(Eq, Some(Value(Int(5))), Some(Value(Int(5)))) == Some(Value(Bool(true)))
    ensures Accepted(KNOWN_AGE) && WhereAccepted(ScopeOf(KNOWN_AGE, 0), Some(AGE_IS_5)) && NoCollision(KNOWN_AGE, 0)
    ensures
      var ann, bob := Iri("ann"), Iri("bob");
      var store := iset{Triple(ann, RelIri("KNOWS"), bob), Triple(ann, PropIri("age"), Value(Int(5)))};
      && MatchedWhere(store, ops, KNOWN_AGE, Some(AGE_IS_5), Reads(AGE_IS_5), map["n" := ann, "n_age" := bob], map[Key("n", "age") := Value(Int(5))])
      && forall m :: !Solution(store, ev, Selection(KNOWN_AGE, 0, Some(AGE_IS_5), Reads(AGE_IS_5)), m)
  {
    var edge, age := Triple(Iri("ann"), RelIri("KNOWS"), Iri("bob")), Triple(Iri("ann"), PropIri("age"), Value(Int(5)));
    KnownAgeAccepted();
    KnowsIsNoProperty();
    hide RelIri, PropIri, Solution, Selection, Accepted, NoCollision, MatchedWhere, Reads;
    KnownAgeMatch(iset{edge, age}, edge, age, ops);
    forall m ensures !Solution(iset{edge, age}, ev, Selection(KNOWN_AGE, 0, Some(AGE_IS_5), Reads(AGE_IS_5)), m) {
      if Solution(iset{edge, age}, ev, Selection(KNOWN_AGE, 0, Some(AGE_IS_5), Reads(AGE_IS_5)), m) {
        KnownAgeSolution(iset{edge, age}, ev, m);
        assert false;
      }
    }
  }

  lemma KnowsIsNoProperty()
    ensures RelIri("KNOWS") != PropIri("age")
  {
    assert RelIri("KNOWS").text[32] == 'r' && PropIri("age").text[32] == 'p';
  }

  lemma KnownAgeAccepted()
    ensures Accepted(KNOWN_AGE) && NoCollision(KNOWN_AGE, 0) && ExprAccepted(ScopeOf(KNOWN_AGE, 0), AGE_IS_5)
    ensures Reads(AGE_IS_5) == [Key("n", "age")] && PropVar(Key("n", "age")) == "n_age"
    ensures NodeVarOf(KNOWN_AGE, 0, 0) == "n" && NodeVarOf(KNOWN_AGE, 0, 1) == "n_age"
  {
    hide FreshName;
    assert NodeNames(KNOWN_AGE, 0) == {"n"} && NodeNames(KNOWN_AGE, 1) == {"n", "n_age"};
    assert RelBindings(KNOWN_AGE, 0, 0) == map[];
    assert RelBindings(KNOWN_AGE, 0, 1) == map[];
    assert "n" + "_" + "age" == "n_age";
    assert IsVariableName("n") && IsVariableName("n_age");
    assert NodeAt(KNOWN_AGE, 0).variable.Some? && NodeAt(KNOWN_AGE, 1).variable.Some?;
  }

  lemma KnownAgeMatch(store: Store, edge: Triple, age: Triple, ops: Operators)
    requires edge == Triple(Iri("ann"), RelIri("KNOWS"), Iri("bob")) && edge in store
    requires age == Triple(Iri("ann"), PropIri("age"), Value(Int(5))) && age in store
    requires ops.binary(Eq, Some(Value(Int(5))), Some(Value(Int(5)))) == Some(Value(Bool(true)))
    ensures MatchedWhere(store, ops, KNOWN_AGE, Some(AGE_IS_5), Reads(AGE_IS_5), map["n" := Iri("ann"), "n_age" := Iri("bob")],
                         map[Key("n", "age") := Value(Int(5))])
  {
    hide RelIri, PropIri;
    var env: Binding := map["n" := Iri("ann"), "n_age" := Iri("bob")];
    var a, vals := Assignment([Iri("ann"), Iri("bob")], [RelIri("KNOWS")]), map[Key("n", "age") := Value(Int(5))];
    assert edge.s == Iri("ann") && edge.o == Iri("bob");
    assert IsNode(store, Iri("ann")) && IsNode(store, Iri("bob"));
    assert HopMatches(store, KNOWN_AGE, a, env, 0);
    assert NodeMatches(store, KNOWN_AGE, a, env, 0) && NodeMatches(store, KNOWN_AGE, a, env, 1);
    assert UserVars(KNOWN_AGE, 0) == {"n"} && UserVars(KNOWN_AGE, 1) == {"n", "n_age"} == env.Keys;
    assert Homomorphism(store, KNOWN_AGE, a, env);
    assert Reads(AGE_IS_5) == [Key("n", "age")] by { KnownAgeAccepted(); }
    assert Picks(store, Reads(AGE_IS_5), env, vals) by { assert Triple(Iri("ann"), PropIri("age"), Value(Int(5))) in store; }
    var five := Some(Value(Int(5)));
    assert CypherValue(ops, KNOWN_AGE, a, vals, Property(Variable("n"), "age")) == five == CypherValue(ops, KNOWN_AGE, a, vals, Lit(Int(5)));
    assert CypherValue(ops, KNOWN_AGE, a, vals, AGE_IS_5) == ops.binary(Eq, five, five);
    assert Selected(store, ops, KNOWN_AGE, Some(AGE_IS_5), Reads(AGE_IS_5), a, env, vals);
  }

  lemma KnownAgeSolution(store: Store, ev: Evaluator, m: Binding)
    requires ExprAccepted(ScopeOf(KNOWN_AGE, 0), AGE_IS_5)
    requires Solution(store, ev, Selection(KNOWN_AGE, 0, Some(AGE_IS_5), Reads(AGE_IS_5)), m)
    ensures "n" in m && "n_age" in m
    ensures Triple(m["n"], RelIri("KNOWS"), m["n_age"]) in store && Triple(m["n"], PropIri("age"), m["n_age"]) in store
  {
    hide RelIri, PropIri, BaseHolds, RelVarOf, HopPart, NodePart, PatternTriples, PatternPaths, Solution, Selection, ReadVars, Slots, NodeVarOf, FilterHolds;
    KnownAgeAccepted();
    var keys := Reads(AGE_IS_5);
    SelectionHolds(store, ev, KNOWN_AGE, Some(AGE_IS_5), keys, m);
    assert keys[0] in keys && ValueStored(store, m, keys[0]);
    InParts(store, KNOWN_AGE, 0, m, 1);
    assert HopPart(store, KNOWN_AGE, 0, m, 0);
    KnownHop(store, m);
  }

  lemma KnownHop(store: Store, m: Binding)
    requires "n" in m && "n_age" in m && HopPart(store, KNOWN_AGE, 0, m, 0)
    ensures Triple(m["n"], RelIri("KNOWS"), m["n_age"]) in store
  {
    hide RelIri, BaseHolds, NodeVarOf, RelVarOf;
    KnownAgeAccepted();
    HopPartHolds(store, m, KNOWN_AGE.hops[0].rel, "n", "n_age", RelVarOf(KNOWN_AGE, 0, 0));
  }
}
