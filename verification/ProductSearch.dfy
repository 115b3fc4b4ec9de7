/** Breadth-first search over (node, automaton state) pairs. */
module ProductSearch {
  import opened Options
  import opened Sequences
  import opened Datasets
  import opened Paths
  import opened Automata

  // ---- Epsilon closure ----

  ghost predicate EpsRun(t: Table, n: nat, s: nat, q: nat) {
    if n == 0 then s == q
    else s < |t| && exists m :: Eps(m) in t[s] && EpsRun(t, n - 1, m, q)
  }

  ghost predicate EpsReach(t: Table, s: nat, q: nat) { exists n: nat :: EpsRun(t, n, s, q) }

  ghost predicate EpsClosed(t: Table, states: set<nat>) {
    forall s, q :: s in states && s < |t| && Eps(q) in t[s] ==> q in states
  }

  lemma {:induction false} EpsClosedAbsorbs(t: Table, states: set<nat>, n: nat, s: nat, q: nat)
    requires EpsClosed(t, states) && s in states && EpsRun(t, n, s, q)
    ensures q in states
    decreases n
  {
    if n > 0 {
      var m :| Eps(m) in t[s] && EpsRun(t, n - 1, m, q);
      EpsClosedAbsorbs(t, states, n - 1, m, q);
    }
  }

  lemma {:induction false} EpsRunSnoc(t: Table, n: nat, s: nat, q: nat, r: nat)
    requires EpsRun(t, n, s, q) && q < |t| && Eps(r) in t[q]
    ensures EpsRun(t, n + 1, s, r)
    decreases n
  {
    if n == 0 {
      assert EpsRun(t, 0, r, r);
    } else {
      var m :| Eps(m) in t[s] && EpsRun(t, n - 1, m, q);
      EpsRunSnoc(t, n - 1, m, q, r);
    }
  }

  lemma {:induction false} EpsRunReaches(ds: Dataset, t: Table, n: nat, x: Id, s: nat, q: nat)
    requires EpsRun(t, n, s, q)
    ensures Reaches(ds, t, x, s, x, q)
    decreases n
  {
    if n == 0 {
      assert Run(ds, t, 0, x, s, x, q);
    } else {
      var m :| Eps(m) in t[s] && EpsRun(t, n - 1, m, q);
      EpsRunReaches(ds, t, n - 1, x, m, q);
      EpsReaches(ds, t, x, s, m);
      ReachesTransitive(ds, t, x, s, x, m, x, q);
    }
  }

  predicate IsState(t: Table, s: nat) { s < |t| }

  function States(t: Table): set<nat> { set s: nat | s < |t| && IsState(t, s) }

  /** Pops one state: the targets of its epsilon edges are pushed unless already found. */
  method PushTargets(t: Table, s: nat, closure: set<nat>, below: seq<nat>) returns (closure': set<nat>, stack: seq<nat>)
    requires InRange(t) && s < |t| && closure <= States(t) && forall q :: q in below ==> q in closure
    ensures closure' <= States(t)
    ensures forall q :: q in closure' <==> q in closure || Eps(q) in t[s]
    ensures forall q :: q in stack <==> q in below || (q in closure' && q !in closure)
    ensures closure' == closure ==> stack == below
  {
    closure', stack := closure, below;
    for i := 0 to |t[s]|
      invariant closure' <= States(t)
      invariant forall q :: q in closure' <==> q in closure || Eps(q) in t[s][..i]
      invariant forall q :: q in stack <==> q in below || (q in closure' && q !in closure)
      invariant closure' == closure ==> stack == below
    {
      var e := t[s][i];
      assert t[s][..i + 1] == t[s][..i] + [e];
      if e.Eps? && e.target !in closure' {
        closure', stack := closure' + {e.target}, stack + [e.target];
      }
    }
    assert t[s][..|t[s]|] == t[s];
  }

  lemma EpsReachStep(t: Table, start: nat, s: nat, q: nat)
    requires EpsReach(t, start, s) && s < |t| && Eps(q) in t[s]
    ensures EpsReach(t, start, q)
  {
    var n: nat :| EpsRun(t, n, start, s);
    EpsRunSnoc(t, n, start, s, q);
  }

  /** All states reachable from `start` by epsilon edges alone, including itself. */
  method EpsilonClosure(t: Table, start: nat) returns (closure: set<nat>)
    requires InRange(t) && start < |t|
    ensures forall q :: q in closure <==> EpsReach(t, start, q)
    ensures EpsClosed(t, closure) && closure <= States(t)
  {
    closure := {start};
    var stack := [start];
    assert EpsRun(t, 0, start, start);
    while stack != []
      invariant start in closure && closure <= States(t)
      invariant forall s :: s in stack ==> s in closure
      invariant forall q :: q in closure ==> EpsReach(t, start, q)
      invariant forall s, q :: s in closure && s !in stack && Eps(q) in t[s] ==> q in closure
      decreases States(t) - closure, |stack|
    {
      hide EpsReach;
      var s := stack[|stack| - 1];
      assert s in stack;
      var below := stack[..|stack| - 1];
      assert forall q :: q in stack <==> q in below || q == s by { assert stack == below + [s]; }
      ghost var before := closure;
      closure, stack := PushTargets(t, s, closure, below);
      forall q | q in closure ensures EpsReach(t, start, q) { if q !in before { EpsReachStep(t, start, s, q); } }
    }
    forall q | EpsReach(t, start, q) ensures q in closure {
      var n: nat :| EpsRun(t, n, start, q);
      EpsClosedAbsorbs(t, closure, n, start, q);
    }
  }

  // ---- Search state ----

  type Pair = (Id, nat)

  datatype Search = Search(visited: set<Pair>, queue: seq<Pair>, accepted: set<Id>)

  /** Queued pairs are visited and queued once; `accepted` mirrors the visited pairs
      in the accept state. */
  ghost predicate Sane(sr: Search, accept: nat) {
    && Distinct(sr.queue)
    && (forall p :: p in sr.queue ==> p in sr.visited)
    && (forall y :: y in sr.accepted <==> (y, accept) in sr.visited)
  }

  /** Visited pairs whose outgoing edges have been followed. */
  ghost predicate Expanded(sr: Search, p: Pair) { p in sr.visited && p !in sr.queue }

  ghost predicate Closed(t: Table, visited: set<Pair>) {
    forall y: Id, s: nat, q: nat :: (y, s) in visited && s < |t| && Eps(q) in t[s] ==> (y, q) in visited
  }

  /** What pushing may do: visit more pairs, queue exactly the new ones. */
  ghost predicate Extends(before: Search, after: Search, accept: nat) {
    && Sane(after, accept) && before.visited <= after.visited
    && (forall p :: Expanded(after, p) <==> Expanded(before, p))
  }

  method Push(sr: Search, node: Id, states: set<nat>, accept: nat) returns (r: Search)
    requires Sane(sr, accept)
    ensures Extends(sr, r, accept)
    ensures forall p :: p in r.visited <==> p in sr.visited || (p.0 == node && p.1 in states)
  {
    r := sr;
    var rest := states;
    while rest != {}
      invariant rest <= states && Extends(sr, r, accept)
      invariant forall p :: p in r.visited <==> p in sr.visited || (p.0 == node && p.1 in states && p.1 !in rest)
      decreases rest
    {
      var s :| s in rest;
      rest := rest - {s};
      if (node, s) !in r.visited {
        r := Search(r.visited + {(node, s)}, r.queue + [(node, s)],
                    if s == accept then r.accepted + {node} else r.accepted);
      }
    }
  }

  method PushAll(t: Table, sr: Search, keys: seq<Id>, states: set<nat>, accept: nat) returns (r: Search)
    requires Sane(sr, accept) && Closed(t, sr.visited) && EpsClosed(t, states)
    ensures Extends(sr, r, accept) && Closed(t, r.visited)
    ensures forall p :: p in r.visited <==> p in sr.visited || (p.0 in keys && p.1 in states)
  {
    r := sr;
    for i := 0 to |keys|
      invariant Extends(sr, r, accept) && Closed(t, r.visited)
      invariant forall p :: p in r.visited <==> p in sr.visited || (p.0 in keys[..i] && p.1 in states)
    {
      r := Push(r, keys[i], states, accept);
      assert keys[..i + 1] == keys[..i] + [keys[i]];
    }
    assert keys[..|keys|] == keys;
  }

  /** Pushes everything one edge leads to from `node`; epsilon edges push nothing
      because every pushed state set is already closed under them. */
  method FollowEdge(ds: Dataset, t: Table, sr: Search, node: Id, e: Edge, accept: nat) returns (r: Search)
    requires InRange(t) && e.target < |t|
    requires Sane(sr, accept) && Closed(t, sr.visited)
    ensures Extends(sr, r, accept) && Closed(t, r.visited)
    ensures forall p :: p in r.visited <==>
                        p in sr.visited || (!e.Eps? && (node, p.0) in Moves(ds, e) && EpsReach(t, e.target, p.1))
  {
    r := sr;
    ScanMeaning(ds);
    match e {
      case Eps(_) =>
      case Fwd(name, next) =>
        if name in ds.ids {
          var keys := JoinScan(ds, Some(node), Some(ds.ids[name]), None, Object);
          var states := EpsilonClosure(t, next);
          r := PushAll(t, r, keys, states, accept);
        }
      case Rev(name, next) =>
        if name in ds.ids {
          var keys := JoinScan(ds, None, Some(ds.ids[name]), Some(node), Subject);
          var states := EpsilonClosure(t, next);
          r := PushAll(t, r, keys, states, accept);
        }
      case NegFwd(names, next) =>
        forall y: Id ensures OtherwiseLinked(ds, names, true, node, y) <==> (node, y) in Moves(ds, e) { NegatedMoves(ds, names, true, node, y); }
        r := FollowNegated(ds, t, sr, node, names, true, next, accept);
      case NegRev(names, next) =>
        forall y: Id ensures OtherwiseLinked(ds, names, false, node, y) <==> (node, y) in Moves(ds, e) { NegatedMoves(ds, names, false, node, y); }
        r := FollowNegated(ds, t, sr, node, names, false, next, accept);
    }
  }

  /** The ids a negated set leaves out; names without an id have none. */
  function Excluded(ds: Dataset, names: seq<Name>): (ids: set<Id>)
    ensures forall p :: p in ids <==> exists n :: n in names && n in ds.ids && ds.ids[n] == p
  {
    set n | n in names && n in ds.ids :: ds.ids[n]
  }

  /** Some triple leads from `x` to `y`, or from `y` to `x`, under none of the names. */
  ghost predicate OtherwiseLinked(ds: Dataset, names: seq<Name>, forward: bool, x: Id, y: Id) {
    exists p :: (if forward then HasTriple(ds, x, p, y) else HasTriple(ds, y, p, x)) && forall n :: n in names && n in ds.ids ==> ds.ids[n] != p
  }

  lemma NegatedMoves(ds: Dataset, names: seq<Name>, forward: bool, x: Id, y: Id)
    ensures OtherwiseLinked(ds, names, forward, x, y)
            <==> if forward then (x, y) in NegatedEdges(ds, names) else (y, x) in NegatedEdges(ds, names)
  {
    if forward { NegatedSetMeans(ds, names, x, y); } else { NegatedSetMeans(ds, names, y, x); }
  }

  ghost predicate NegatedHop(ds: Dataset, preds: seq<Id>, excluded: set<Id>, forward: bool, x: Id, y: Id) {
    exists p :: p in preds && p !in excluded && (if forward then HasTriple(ds, x, p, y) else HasTriple(ds, y, p, x))
  }

  /** The negated-set case: enumerate the node's predicates, skip the excluded ones. */
  method FollowNegated(ds: Dataset, t: Table, sr: Search, node: Id, names: seq<Name>, forward: bool, next: nat, accept: nat)
      returns (r: Search)
    requires InRange(t) && next < |t|
    requires Sane(sr, accept) && Closed(t, sr.visited)
    ensures Extends(sr, r, accept) && Closed(t, r.visited)
    ensures forall p :: p in r.visited <==>
                        p in sr.visited || (OtherwiseLinked(ds, names, forward, node, p.0) && EpsReach(t, next, p.1))
  {
    ScanMeaning(ds);
    r := sr;
    var excluded := Excluded(ds, names);
    var preds;
    if forward {
      preds := JoinScan(ds, Some(node), None, None, Predicate);
    } else {
      preds := JoinScan(ds, None, None, Some(node), Predicate);
    }
    var states := EpsilonClosure(t, next);
    for i := 0 to |preds|
      invariant Extends(sr, r, accept) && Closed(t, r.visited)
      invariant forall p :: p in r.visited <==>
                            p in sr.visited || (NegatedHop(ds, preds[..i], excluded, forward, node, p.0) && p.1 in states)
    {
      assert preds[..i + 1] == preds[..i] + [preds[i]];
      if preds[i] !in excluded {
        var keys;
        if forward {
          keys := JoinScan(ds, Some(node), Some(preds[i]), None, Object);
        } else {
          keys := JoinScan(ds, None, Some(preds[i]), Some(node), Subject);
        }
        r := PushAll(t, r, keys, states, accept);
      }
    }
    assert preds[..|preds|] == preds;
    forall y: Id ensures NegatedHop(ds, preds, excluded, forward, node, y) <==> OtherwiseLinked(ds, names, forward, node, y) {
      if OtherwiseLinked(ds, names, forward, node, y) {
        var p :| (if forward then HasTriple(ds, node, p, y) else HasTriple(ds, y, p, node)) && forall n :: n in names && n in ds.ids ==> ds.ids[n] != p;
        assert p in preds && p !in excluded;
      }
      if NegatedHop(ds, preds, excluded, forward, node, y) {
        var p :| p in preds && p !in excluded && (if forward then HasTriple(ds, node, p, y) else HasTriple(ds, y, p, node));
        assert forall n :: n in names && n in ds.ids ==> ds.ids[n] != p;
      }
    }
  }

  // ---- The search ----

  ghost predicate Sound(ds: Dataset, t: Table, x: Id, start: nat, visited: set<Pair>) {
    forall y, q :: (y, q) in visited ==> Reaches(ds, t, x, start, y, q)
  }

  /** Every edge of an expanded pair has been followed. */
  ghost predicate Followed(ds: Dataset, t: Table, sr: Search) {
    forall y: Id, s: nat, e, z: Id :: Expanded(sr, (y, s)) && s < |t| && e in t[s] && (y, z) in Moves(ds, e)
                         ==> (z, e.target) in sr.visited
  }

  function Universe(ds: Dataset, t: Table, x: Id): set<Pair> {
    set y, s | y in Nodes(ds) + {x} && s in States(t) :: (y, s)
  }

  lemma MovesStayInUniverse(ds: Dataset, t: Table, x: Id, e: Edge, y: Id, z: Id, q: nat)
    requires y in Nodes(ds) + {x} && (y, z) in Moves(ds, e) && q < |t|
    ensures (z, q) in Universe(ds, t, x)
  {
    forall a, p, b | HasTriple(ds, a, p, b) ensures a in Nodes(ds) && b in Nodes(ds) {
      TripleEndsAreNodes(ds, a, p, b);
    }
  }

  lemma FollowedEdgeSound(ds: Dataset, t: Table, x: Id, start: nat, y: Id, s: nat, e: Edge, z: Id, q: nat)
    requires Reaches(ds, t, x, start, y, s) && s < |t| && e in t[s]
    requires (y, z) in Moves(ds, e) && EpsReach(t, e.target, q)
    ensures Reaches(ds, t, x, start, z, q)
  {
    assert Along(ds, e, y, z, e.target);
    StepReaches(ds, t, y, s, z, e.target);
    var n: nat :| EpsRun(t, n, e.target, q);
    EpsRunReaches(ds, t, n, z, e.target, q);
    ReachesTransitive(ds, t, x, start, y, s, z, e.target);
    ReachesTransitive(ds, t, x, start, z, e.target, z, q);
  }

  lemma {:induction false} ClosedSearchComplete(ds: Dataset, t: Table, visited: set<Pair>, n: nat, x: Id, s: nat, y: Id, q: nat)
    requires forall u, k, e, v :: (u, k) in visited && k < |t| && e in t[k] && (u, v) in Moves(ds, e) ==> (v, e.target) in visited
    requires (x, s) in visited && Run(ds, t, n, x, s, y, q)
    ensures (y, q) in visited
    decreases n
  {
    if n > 0 {
      var z, m :| Step(ds, t, x, s, z, m) && Run(ds, t, n - 1, z, m, y, q);
      ClosedSearchComplete(ds, t, visited, n - 1, z, m, y, q);
    }
  }

  /** The node searched from, in every state reached without an edge. */
  method StartSearch(ds: Dataset, t: Table, start: nat, accept: nat, x: Id) returns (sr: Search)
    requires InRange(t) && start < |t|
    ensures Sane(sr, accept) && Closed(t, sr.visited) && (x, start) in sr.visited
    ensures Sound(ds, t, x, start, sr.visited) && sr.visited <= Universe(ds, t, x)
    ensures forall p :: !Expanded(sr, p)
  {
    var states := EpsilonClosure(t, start);
    sr := Search({}, [], {});
    sr := PushAll(t, sr, [x], states, accept);
    assert EpsRun(t, 0, start, start);
    forall q: nat | EpsReach(t, start, q) ensures Reaches(ds, t, x, start, x, q) && q < |t| {
      var n: nat :| EpsRun(t, n, start, q);
      EpsRunReaches(ds, t, n, x, start, q);
      EpsStaysInRange(t, start, q);
    }
  }

  /** Once nothing is queued the accepted nodes are those some run reaches. */
  lemma SearchComplete(ds: Dataset, t: Table, sr: Search, x: Id, start: nat, accept: nat)
    requires InRange(t) && Sane(sr, accept) && sr.queue == [] && Followed(ds, t, sr)
    requires (x, start) in sr.visited && Sound(ds, t, x, start, sr.visited)
    ensures forall y :: y in sr.accepted <==> Reaches(ds, t, x, start, y, accept)
  {
    hide Moves;
    forall y | Reaches(ds, t, x, start, y, accept) ensures y in sr.accepted {
      var n: nat :| Run(ds, t, n, x, start, y, accept);
      ClosedSearchComplete(ds, t, sr.visited, n, x, start, y, accept);
    }
  }

  /** The nodes reached from `x` in the accept state are exactly those some run reaches. */
  method ProductBfs(ds: Dataset, t: Table, start: nat, accept: nat, x: Id) returns (reached: set<Id>)
    requires InRange(t) && start < |t|
    ensures forall y :: y in reached <==> Reaches(ds, t, x, start, y, accept)
  {
    hide Sound, Closed, Reaches, Moves;
    var sr := StartSearch(ds, t, start, accept, x);
    ghost var universe := Universe(ds, t, x);
    ghost var expanded: set<Pair> := {};
    while sr.queue != []
      invariant Sane(sr, accept) && Closed(t, sr.visited) && (x, start) in sr.visited
      invariant sr.visited <= universe && Sound(ds, t, x, start, sr.visited)
      invariant Followed(ds, t, sr)
      invariant expanded <= universe && forall p :: p in expanded <==> Expanded(sr, p)
      decreases universe - expanded
    {
      var (node, state) := sr.queue[0];
      ghost var before := sr;
      sr := sr.(queue := sr.queue[1..]);
      assert forall p :: p in before.queue <==> p == (node, state) || p in sr.queue;
      assert (node, state) !in sr.queue;
      sr := FollowEdges(ds, t, sr, x, start, node, state, accept);
      expanded := expanded + {(node, state)};
    }
    reached := sr.accepted;
    SearchComplete(ds, t, sr, x, start, accept);
  }

  /** Follows all edges of one dequeued pair. */
  method FollowEdges(ds: Dataset, t: Table, sr: Search, ghost x: Id, ghost start: nat, node: Id, state: nat, accept: nat)
      returns (r: Search)
    requires InRange(t) && state < |t| && (node, state) in sr.visited
    requires Sane(sr, accept) && Closed(t, sr.visited)
    requires Sound(ds, t, x, start, sr.visited) && sr.visited <= Universe(ds, t, x)
    ensures Extends(sr, r, accept) && Closed(t, r.visited)
    ensures Sound(ds, t, x, start, r.visited) && r.visited <= Universe(ds, t, x)
    ensures forall e, z :: e in t[state] && (node, z) in Moves(ds, e) ==> (z, e.target) in r.visited
  {
    hide Closed, Sound, Universe, Moves;
    r := sr;
    for i := 0 to |t[state]|
      invariant Extends(sr, r, accept) && Closed(t, r.visited)
      invariant Sound(ds, t, x, start, r.visited) && r.visited <= Universe(ds, t, x)
      invariant forall e, z :: e in t[state][..i] && (node, z) in Moves(ds, e) ==> (z, e.target) in r.visited
    {
      var e := t[state][i];
      ghost var before := r;
      r := FollowEdge(ds, t, r, node, e, accept);
      EdgeKeepsInvariants(ds, t, x, start, node, state, e, before.visited, r.visited);
      assert t[state][..i + 1] == t[state][..i] + [e];
    }
    assert t[state][..|t[state]|] == t[state];
  }

  lemma EdgeKeepsInvariants(ds: Dataset, t: Table, x: Id, start: nat, node: Id, state: nat, e: Edge, before: set<Pair>, after: set<Pair>)
    requires InRange(t) && state < |t| && e in t[state] && (node, state) in before
    requires Sound(ds, t, x, start, before) && before <= Universe(ds, t, x) && Closed(t, before) && before <= after
    requires forall p :: p in after <==>
                         p in before || (!e.Eps? && (node, p.0) in Moves(ds, e) && EpsReach(t, e.target, p.1))
    ensures Sound(ds, t, x, start, after) && after <= Universe(ds, t, x)
    ensures forall z :: (node, z) in Moves(ds, e) ==> (z, e.target) in after
  {
    assert EpsRun(t, 0, e.target, e.target);
    forall y, q | (y, q) in after && (y, q) !in before
      ensures Reaches(ds, t, x, start, y, q) && (y, q) in Universe(ds, t, x)
    {
      FollowedEdgeSound(ds, t, x, start, node, state, e, y, q);
      EpsStaysInRange(t, e.target, q);
      MovesStayInUniverse(ds, t, x, e, node, y, q);
    }
  }

  lemma EpsStaysInRange(t: Table, s: nat, q: nat)
    requires InRange(t) && s < |t| && EpsReach(t, s, q)
    ensures q < |t|
  {
    var n: nat :| EpsRun(t, n, s, q);
    EpsClosedAbsorbs(t, States(t), n, s, q);
  }
}
