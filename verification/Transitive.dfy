/** Single-predicate `+` and `*`: forward, backward and meet-in-the-middle search. */
module Transitive {
  import opened Options
  import opened Sequences
  import opened Datasets
  import opened Relations
  import opened Paths

  // ---- Closures of a finite search ----

  ghost predicate ClosedUnder(r: Relation, seen: set<Id>) {
    forall u, v :: u in seen && (u, v) in r ==> v in seen
  }

  lemma {:induction false} ClosedSetHoldsWalk(r: Relation, seen: set<Id>, n: nat, x: Id, y: Id)
    requires ClosedUnder(r, seen) && x in seen && Walk(r, n, x, y)
    ensures y in seen
    decreases n
  {
    if n > 0 {
      var z :| (x, z) in r && Walk(r, n - 1, z, y);
      ClosedSetHoldsWalk(r, seen, n - 1, z, y);
    }
  }

  lemma ExtendStar(r: Relation, x: Id, y: Id, z: Id)
    requires (x, y) in Star(r) && (y, z) in r
    ensures (x, z) in Plus(r) && (x, z) in Star(r)
  {
    var n: nat :| Walk(r, n, x, y);
    WalkSnoc(r, n, x, y, z);
  }

  /** One or more steps are zero or more steps and a last one. */
  lemma LastStep(r: Relation, x: Id, z: Id) returns (y: Id)
    requires (x, z) in Plus(r)
    ensures (x, y) in Star(r) && (y, z) in r
  {
    var n: nat :| n >= 1 && Walk(r, n, x, z);
    y := WalkUnsnoc(r, n - 1, x, z);
  }

  lemma StarBeyondSelf(r: Relation, x: Id, y: Id)
    requires x != y
    ensures (x, y) in Star(r) <==> (x, y) in Plus(r)
  {
    if (x, y) in Star(r) {
      var n: nat :| n >= 0 && Walk(r, n, x, y);
      assert n >= 1;
    }
  }

  lemma StarReflexive(r: Relation, x: Id)
    ensures (x, x) in Star(r)
  {
    assert Walk(r, 0, x, x);
  }

  /** Invariant of a search over `r` from `start`: the queue holds the visited nodes
      still to expand, and expanded nodes have had all successors visited. */
  ghost predicate SearchState(ds: Dataset, r: Relation, start: Id, visited: set<Id>, queue: seq<Id>, done: set<Id>) {
    && start in visited && visited <= Nodes(ds) + {start}
    && Distinct(queue) && (forall v :: v in queue ==> v !in done)
    && (forall v: Id :: v in visited <==> v in done || v in queue)
    && (forall v: Id :: v in visited ==> (start, v) in Star(r))
    && (forall u, v :: u in done && (u, v) in r ==> v in visited)
  }

  ghost predicate IsPredicateRelation(ds: Dataset, r: Relation) {
    exists pred :: r == Edges(ds, pred) || r == Converse(Edges(ds, pred))
  }

  lemma StepAmongNodes(ds: Dataset, r: Relation, x: Id, y: Id)
    requires IsPredicateRelation(ds, r) && (x, y) in r
    ensures x in Nodes(ds) && y in Nodes(ds)
  {
    var pred :| r == Edges(ds, pred) || r == Converse(Edges(ds, pred));
    if HasTriple(ds, x, pred, y) { TripleEndsAreNodes(ds, x, pred, y); } else { TripleEndsAreNodes(ds, y, pred, x); }
  }

  lemma SearchAdvances(ds: Dataset, r: Relation, start: Id, visited: set<Id>, curr: Id, rest: seq<Id>, done: set<Id>,
                       visited': set<Id>, queue': seq<Id>)
    requires IsPredicateRelation(ds, r)
    requires SearchState(ds, r, start, visited, [curr] + rest, done)
    requires forall v: Id :: v in visited' <==> v in visited || (curr, v) in r
    requires Distinct(queue') && forall v :: v in queue' <==> v in rest || (v in visited' && v !in visited)
    ensures SearchState(ds, r, start, visited', queue', done + {curr})
    ensures curr !in done && curr in Nodes(ds) + {start}
  {
    assert ([curr] + rest)[0] == curr;
    assert forall i :: 0 <= i < |rest| ==> ([curr] + rest)[i + 1] == rest[i];
    assert forall v :: v in [curr] + rest <==> v == curr || v in rest;
    forall v: Id | v in visited' && v !in visited ensures (start, v) in Star(r) && v in Nodes(ds) {
      ExtendStar(r, start, curr, v);
      StepAmongNodes(ds, r, curr, v);
    }
  }

  lemma SearchFinds(ds: Dataset, r: Relation, start: Id, visited: set<Id>)
    requires SearchState(ds, r, start, visited, [], visited)
    ensures forall v: Id :: v in visited <==> (start, v) in Star(r)
    ensures forall v: Id :: (start, v) in Plus(r) <==> exists u :: u in visited && (u, v) in r
  {
    forall v: Id | (start, v) in Star(r) ensures v in visited {
      var n: nat :| n >= 0 && Walk(r, n, start, v);
      ClosedSetHoldsWalk(r, visited, n, start, v);
    }
    forall v: Id | (start, v) in Plus(r) ensures exists u :: u in visited && (u, v) in r {
      var u := LastStep(r, start, v);
    }
    forall u: Id, v: Id | u in visited && (u, v) in r ensures (start, v) in Plus(r) { ExtendStar(r, start, u, v); }
  }

  // ---- Forward ----

  /** Pairs `+` (or `*`, with `identity`) relates from the given start nodes. */
  ghost predicate Reached(ds: Dataset, pred: Id, identity: bool, x: Id, y: Id) {
    (x, y) in Plus(Edges(ds, pred)) || (identity && x == y)
  }

  /** One dequeued node of a forward search: its successors are visited and emitted. */
  method EmitSuccessors(ds: Dataset, pred: Id, start: Id, curr: Id, visited: set<Id>, queue: seq<Id>,
                        seen: set<(Id, Id)>, result: seq<(Id, Id)>)
      returns (visited': set<Id>, queue': seq<Id>, seen': set<(Id, Id)>, result': seq<(Id, Id)>)
    requires Distinct(queue) && forall v :: v in queue ==> v in visited
    requires Distinct(result) && SameElements(result, seen)
    ensures Distinct(queue') && forall v :: v in queue' <==> v in queue || (v in visited' && v !in visited)
    ensures forall v: Id :: v in visited' <==> v in visited || (curr, v) in Edges(ds, pred)
    ensures Distinct(result') && SameElements(result', seen')
    ensures forall x: Id, y: Id :: (x, y) in seen' <==> (x, y) in seen || (x == start && (curr, y) in Edges(ds, pred))
  {
    ScanMeaning(ds);
    visited', queue', seen', result' := visited, queue, seen, result;
    var keys := JoinScan(ds, Some(curr), Some(pred), None, Object);
    for i := 0 to |keys|
      invariant Distinct(queue') && forall v :: v in queue' <==> v in queue || (v in visited' && v !in visited)
      invariant forall v: Id :: v in visited' <==> v in visited || v in keys[..i]
      invariant Distinct(result') && SameElements(result', seen')
      invariant forall x: Id, y: Id :: (x, y) in seen' <==> (x, y) in seen || (x == start && y in keys[..i])
    {
      var nbr := keys[i];
      if nbr !in visited' {
        visited', queue' := visited' + {nbr}, queue' + [nbr];
      }
      if (start, nbr) !in seen' {
        seen', result' := seen' + {(start, nbr)}, result' + [(start, nbr)];
      }
      assert keys[..i + 1] == keys[..i] + [nbr];
    }
    assert keys[..|keys|] == keys;
  }

  method ForwardFrom(ds: Dataset, pred: Id, start: Id, identity: bool, given: set<(Id, Id)>, listed: seq<(Id, Id)>)
      returns (seen: set<(Id, Id)>, result: seq<(Id, Id)>)
    requires Distinct(listed) && SameElements(listed, given)
    requires forall y :: (start, y) in given ==> Reached(ds, pred, identity, start, y)
    ensures Distinct(result) && SameElements(result, seen)
    ensures forall x: Id, y: Id :: (x, y) in seen <==> (x, y) in given || (x == start && Reached(ds, pred, identity, x, y))
  {
    hide Plus, Star, Walk;
    ghost var r := Edges(ds, pred);
    StarReflexive(r, start);
    seen, result := given, listed;
    if identity && (start, start) !in seen {
      seen, result := seen + {(start, start)}, result + [(start, start)];
    }
    var visited := {start};
    var queue := [start];
    ghost var done: set<Id> := {};
    while queue != []
      invariant SearchState(ds, r, start, visited, queue, done)
      invariant Distinct(result) && SameElements(result, seen)
      invariant forall x: Id, y: Id :: (x, y) in given ==> (x, y) in seen
      invariant identity ==> (start, start) in seen
      invariant forall u, v :: u in done && (u, v) in r ==> (start, v) in seen
      invariant forall x: Id, y: Id :: (x, y) in seen && (x, y) !in given ==> x == start && Reached(ds, pred, identity, x, y)
      decreases Nodes(ds) + {start} - done
    {
      var curr := queue[0];
      ghost var before, rest := visited, queue[1..];
      assert queue == [curr] + rest;
      forall v: Id | (curr, v) in r ensures (start, v) in Plus(r) { ExtendStar(r, start, curr, v); }
      visited, queue, seen, result := EmitSuccessors(ds, pred, start, curr, visited, queue[1..], seen, result);
      SearchAdvances(ds, r, start, before, curr, rest, done, visited, queue);
      done := done + {curr};
    }
    assert done == visited;
    SearchFinds(ds, r, start, visited);
  }

  /** Every pair is emitted once, whatever repetitions `starts` holds. */
  method BfsForward(ds: Dataset, pred: Id, starts: seq<Id>, identity: bool) returns (result: seq<(Id, Id)>)
    ensures Distinct(result)
    ensures forall x: Id, y: Id :: (x, y) in result <==> x in starts && Reached(ds, pred, identity, x, y)
  {
    result := [];
    var seen: set<(Id, Id)> := {};
    for i := 0 to |starts|
      invariant Distinct(result) && SameElements(result, seen)
      invariant forall x: Id, y: Id :: (x, y) in seen <==> x in starts[..i] && Reached(ds, pred, identity, x, y)
    {
      seen, result := ForwardFrom(ds, pred, starts[i], identity, seen, result);
      assert starts[..i + 1] == starts[..i] + [starts[i]];
    }
    assert starts[..|starts|] == starts;
  }

  // ---- Backward ----

  /** What backward search lists for target `t`: its proper predecessors, and `t`
      itself only when identities are asked for. */
  ghost predicate BackwardReached(ds: Dataset, pred: Id, identity: bool, x: Id, t: Id) {
    if x == t then identity else (x, t) in Plus(Edges(ds, pred))
  }

  /** One dequeued node of a backward search: new predecessors are queued and listed. */
  method EmitPredecessors(ds: Dataset, pred: Id, target: Id, curr: Id, seen: set<Id>, queue: seq<Id>, result: seq<(Id, Id)>)
      returns (seen': set<Id>, queue': seq<Id>, result': seq<(Id, Id)>)
    requires Distinct(queue) && forall v :: v in queue ==> v in seen
    requires Distinct(result) && forall x: Id, y: Id :: (x, y) in result ==> x in seen
    ensures Distinct(queue') && forall v :: v in queue' <==> v in queue || (v in seen' && v !in seen)
    ensures forall v: Id :: v in seen' <==> v in seen || (curr, v) in Converse(Edges(ds, pred))
    ensures Distinct(result')
    ensures forall x: Id, y: Id :: (x, y) in result' <==> (x, y) in result || (y == target && x in seen' && x !in seen)
  {
    ScanMeaning(ds);
    seen', queue', result' := seen, queue, result;
    var keys := JoinScan(ds, None, Some(pred), Some(curr), Subject);
    for i := 0 to |keys|
      invariant Distinct(queue') && forall v :: v in queue' <==> v in queue || (v in seen' && v !in seen)
      invariant forall v: Id :: v in seen' <==> v in seen || v in keys[..i]
      invariant Distinct(result')
      invariant forall x: Id, y: Id :: (x, y) in result' <==> (x, y) in result || (y == target && x in seen' && x !in seen)
    {
      var s := keys[i];
      if s !in seen' {
        seen', queue', result' := seen' + {s}, queue' + [s], result' + [(s, target)];
      }
      assert keys[..i + 1] == keys[..i] + [s];
    }
    assert keys[..|keys|] == keys;
  }

  method BfsBackward(ds: Dataset, pred: Id, target: Id, identity: bool) returns (result: seq<(Id, Id)>)
    ensures Distinct(result)
    ensures forall x: Id, y: Id :: (x, y) in result <==> y == target && BackwardReached(ds, pred, identity, x, y)
  {
    ghost var r := Converse(Edges(ds, pred));
    StarReflexive(r, target);
    result := if identity then [(target, target)] else [];
    var seen := {target};
    var queue := [target];
    ghost var done: set<Id> := {};
    while queue != []
      invariant SearchState(ds, r, target, seen, queue, done)
      invariant Distinct(result)
      invariant forall x: Id, y: Id :: (x, y) in result <==> y == target && x in seen && (x == target ==> identity)
      decreases Nodes(ds) + {target} - done
    {
      var curr := queue[0];
      ghost var before, rest := seen, queue[1..];
      assert queue == [curr] + rest;
      seen, queue, result := EmitPredecessors(ds, pred, target, curr, seen, queue[1..], result);
      SearchAdvances(ds, r, target, before, curr, rest, done, seen, queue);
      done := done + {curr};
    }
    assert done == seen;
    SearchFinds(ds, r, target, seen);
    ConverseClosures(Edges(ds, pred));
    forall x: Id | x != target ensures (target, x) in Star(r) <==> (x, target) in Plus(Edges(ds, pred)) {
      StarBeyondSelf(r, target, x);
    }
  }

  /** Forward and backward search agree on a bound target except that backward `+`
      never lists `(t, t)`: the target is marked seen before the search starts. */
  lemma BackwardAgreesIffNotOnCycle(ds: Dataset, pred: Id, identity: bool, t: Id)
    ensures (forall x: Id :: BackwardReached(ds, pred, identity, x, t) <==> Reached(ds, pred, identity, x, t))
            <==> (identity || (t, t) !in Plus(Edges(ds, pred)))
  {
    if !identity && (t, t) in Plus(Edges(ds, pred)) {
      assert Reached(ds, pred, identity, t, t) && !BackwardReached(ds, pred, identity, t, t);
    }
  }

  lemma BackwardMissesSelfLoop()
    ensures var ds := Dataset({Triple(1, 7, 1)}, map["p" := 7]);
            Reached(ds, 7, false, 1, 1) && !BackwardReached(ds, 7, false, 1, 1)
  {
    var ds := Dataset({Triple(1, 7, 1)}, map["p" := 7]);
    assert HasTriple(ds, 1, 7, 1);
    WalkOne(Edges(ds, 7), 1, 1);
  }

  // ---- Meet in the middle ----

  ghost predicate Within(r: Relation, n: int, x: Id, y: Id) {
    exists k: nat :: k <= n && Walk(r, k, x, y)
  }

  /** `ids` are the nodes at most `n` steps from `c`. */
  ghost predicate Ball(r: Relation, c: Id, n: nat, ids: set<Id>) {
    forall v: Id :: v in ids <==> Within(r, n, c, v)
  }

  /** `ids` are the nodes exactly `n` steps from `c`, counted along a shortest walk. */
  ghost predicate Sphere(r: Relation, c: Id, n: nat, ids: seq<Id>) {
    forall v: Id :: v in ids <==> Within(r, n, c, v) && !Within(r, n - 1, c, v)
  }

  ghost predicate NoWalk(r: Relation, x: Id, y: Id, n: nat) {
    forall k: nat :: 1 <= k <= n ==> !Walk(r, k, x, y)
  }

  ghost predicate Shortest(r: Relation, x: Id, y: Id, d: nat) {
    d > 0 && Walk(r, d, x, y) && NoWalk(r, x, y, d - 1)
  }

  ghost function Direction(ds: Dataset, pred: Id, forward: bool): Relation {
    if forward then Edges(ds, pred) else Converse(Edges(ds, pred))
  }

  lemma NoWalkConverse(r: Relation, x: Id, y: Id, n: nat)
    requires NoWalk(r, x, y, n)
    ensures NoWalk(Converse(r), y, x, n)
  {
    forall k: nat | 1 <= k <= n ensures !Walk(Converse(r), k, y, x) { WalkConverse(r, k, y, x); }
  }

  /** Growing a ball by the successors of its sphere gives the next ball and sphere. */
  lemma LayerGrows(r: Relation, c: Id, n: nat, visited: set<Id>, layer: seq<Id>, visited': set<Id>, layer': seq<Id>)
    requires Ball(r, c, n, visited) && Sphere(r, c, n, layer)
    requires forall v: Id :: v in visited' <==> v in visited || exists u :: u in layer && (u, v) in r
    requires forall v: Id :: v in layer' <==> v in visited' && v !in visited
    ensures Ball(r, c, n + 1, visited') && Sphere(r, c, n + 1, layer')
  {
    forall v: Id ensures v in visited' <==> Within(r, n + 1, c, v) {
      if v in visited' && v !in visited {
        var u :| u in layer && (u, v) in r;
        var k: nat :| k <= n && Walk(r, k, c, u);
        WalkSnoc(r, k, c, u, v);
      }
      if v !in visited && Within(r, n + 1, c, v) {
        var k: nat :| k <= n + 1 && Walk(r, k, c, v);
        var u := WalkUnsnoc(r, n, c, v);
        if u !in layer {
          var j: nat :| j <= n - 1 && Walk(r, j, c, u);
          WalkSnoc(r, j, c, u, v);
          assert Within(r, n, c, v);
        }
      }
    }
  }

  /** A pass with no hit rules out walks one longer than the two radii. */
  lemma MissRulesOut(r: Relation, c: Id, c': Id, i: nat, j: nat, layer: seq<Id>, other: set<Id>)
    requires Sphere(r, c, i, layer) && Ball(Converse(r), c', j, other) && NoWalk(r, c, c', i + j)
    requires forall u, v :: u in layer && (u, v) in r ==> v !in other
    ensures NoWalk(r, c, c', i + j + 1)
  {
    if Walk(r, i + j + 1, c, c') {
      var v := WalkSplit(r, i + 1, j, c, c');
      var u := WalkUnsnoc(r, i, c, v);
      WalkConverse(r, j, c', v);
      assert Within(Converse(r), j, c', v);
      assert Within(r, i, c, u);
      var k: nat :| k <= i - 1 && Walk(r, k, c, u);
      WalkSnoc(r, k, c, u, v);
      WalkJoin(r, k + 1, j, c, v, c');
      assert false;
    }
  }

  lemma HitIsWalk(r: Relation, c: Id, c': Id, i: nat, j: nat, layer: seq<Id>, other: set<Id>, u: Id, v: Id)
    requires Sphere(r, c, i, layer) && Ball(Converse(r), c', j, other) && NoWalk(r, c, c', i + j)
    requires u in layer && (u, v) in r && v in other
    ensures Shortest(r, c, c', i + j + 1)
  {
    var k: nat :| k <= i && Walk(r, k, c, u);
    var m: nat :| m <= j && Walk(Converse(r), m, c', v);
    WalkConverse(r, m, c', v);
    WalkSnoc(r, k, c, u, v);
    WalkJoin(r, k + 1, m, c, v, c');
    assert k + 1 + m == i + j + 1;
  }

  method ExpandLayer(ds: Dataset, pred: Id, forward: bool, layer: seq<Id>, visited: set<Id>, other: set<Id>, ghost c: Id)
      returns (hit: bool, visited': set<Id>, frontier: seq<Id>, ghost from: Id, ghost to: Id)
    requires visited <= Nodes(ds) + {c}
    ensures hit ==> from in layer && (from, to) in Direction(ds, pred, forward) && to in other
    ensures !hit ==> forall u, v :: u in layer && (u, v) in Direction(ds, pred, forward) ==> v !in other
    ensures !hit ==> forall v: Id :: v in visited' <==>
                                     v in visited || exists u :: u in layer && (u, v) in Direction(ds, pred, forward)
    ensures !hit ==> forall v: Id :: v in frontier <==> v in visited' && v !in visited
    ensures !hit ==> visited <= visited' <= Nodes(ds) + {c}
  {
    ghost var r := Direction(ds, pred, forward);
    ScanMeaning(ds);
    hit, visited', frontier, from, to := false, visited, [], 0, 0;
    for i := 0 to |layer|
      invariant !hit
      invariant visited <= visited' <= Nodes(ds) + {c}
      invariant forall u, v :: u in layer[..i] && (u, v) in r ==> v !in other && v in visited'
      invariant forall v: Id :: v in visited' ==> v in visited || exists u :: u in layer[..i] && (u, v) in r
      invariant forall v: Id :: v in frontier <==> v in visited' && v !in visited
    {
      var curr := layer[i];
      assert layer[..i + 1] == layer[..i] + [curr];
      var keys;
      if forward {
        keys := JoinScan(ds, Some(curr), Some(pred), None, Object);
      } else {
        keys := JoinScan(ds, None, Some(pred), Some(curr), Subject);
      }
      assert forall v: Id :: v in keys <==> (curr, v) in r;
      for j := 0 to |keys|
        invariant !hit
        invariant visited <= visited' <= Nodes(ds) + {c}
        invariant forall u, v :: u in layer[..i] && (u, v) in r ==> v !in other && v in visited'
        invariant forall v: Id :: v in keys[..j] ==> v !in other && v in visited'
        invariant forall v: Id :: v in visited' ==> v in visited || exists u :: u in layer[..i + 1] && (u, v) in r
        invariant forall v: Id :: v in frontier <==> v in visited' && v !in visited
      {
        var nbr := keys[j];
        assert (curr, nbr) in r;
        if nbr in other {
          return true, visited', frontier, curr, nbr;
        }
        if forward { TripleEndsAreNodes(ds, curr, pred, nbr); } else { TripleEndsAreNodes(ds, nbr, pred, curr); }
        if nbr !in visited' {
          visited', frontier := visited' + {nbr}, frontier + [nbr];
        }
        assert keys[..j + 1] == keys[..j] + [nbr];
      }
      assert keys[..|keys|] == keys;
    }
    assert layer[..|layer|] == layer;
  }

  /** One pass of a round on one side, starting with radius `i` here and `j` opposite. */
  method Pass(ds: Dataset, pred: Id, forward: bool, layer: seq<Id>, visited: set<Id>, other: set<Id>,
              ghost c: Id, ghost c': Id, ghost i: nat, ghost j: nat)
      returns (hit: bool, visited': set<Id>, frontier: seq<Id>)
    requires Ball(Direction(ds, pred, forward), c, i, visited) && Sphere(Direction(ds, pred, forward), c, i, layer)
    requires Ball(Direction(ds, pred, !forward), c', j, other) && NoWalk(Direction(ds, pred, forward), c, c', i + j)
    requires visited <= Nodes(ds) + {c}
    ensures hit ==> Shortest(Direction(ds, pred, forward), c, c', i + j + 1)
    ensures !hit ==> Ball(Direction(ds, pred, forward), c, i + 1, visited') && Sphere(Direction(ds, pred, forward), c, i + 1, frontier)
    ensures !hit ==> NoWalk(Direction(ds, pred, forward), c, c', i + j + 1)
    ensures !hit ==> visited <= visited' <= Nodes(ds) + {c}
    ensures !hit && visited' == visited ==> frontier == []
  {
    ghost var r := Direction(ds, pred, forward);
    ConverseTwice(Edges(ds, pred));
    assert Converse(r) == Direction(ds, pred, !forward);
    ghost var from, to;
    hit, visited', frontier, from, to := ExpandLayer(ds, pred, forward, layer, visited, other, c);
    if hit {
      HitIsWalk(r, c, c', i, j, layer, other, from, to);
    } else {
      LayerGrows(r, c, i, visited, layer, visited', frontier);
      MissRulesOut(r, c, c', i, j, layer, other);
      if frontier != [] { assert frontier[0] in frontier; }
    }
  }

  lemma BallOfRadiusZero(r: Relation, c: Id)
    ensures Ball(r, c, 0, {c}) && Sphere(r, c, 0, [c])
  {
    assert Walk(r, 0, c, c);
    forall v: Id ensures Within(r, 0, c, v) <==> v == c {
      if Within(r, 0, c, v) { var k: nat :| k <= 0 && Walk(r, k, c, v); }
    }
  }

  /** Once a sphere is empty its ball holds everything reachable. */
  lemma {:induction false} EmptySphereStops(r: Relation, c: Id, n: nat, k: nat, v: Id)
    requires Sphere(r, c, n, []) && Walk(r, k, c, v)
    ensures Within(r, n - 1, c, v)
    decreases k
  {
    if k <= n {
      assert Within(r, n, c, v);
      assert v !in [];
    } else {
      var u := WalkUnsnoc(r, k - 1, c, v);
      EmptySphereStops(r, c, n, k - 1, u);
      var j: nat :| j <= n - 1 && Walk(r, j, c, u);
      WalkSnoc(r, j, c, u, v);
      EmptySphereStops(r, c, n, j + 1, v);
    }
  }

  lemma ExhaustedMeansUnreachable(r: Relation, x: Id, y: Id, n: nat)
    requires Sphere(r, x, n, []) && NoWalk(r, x, y, 2 * n)
    ensures (x, y) !in Plus(r)
  {
    if (x, y) in Plus(r) {
      var k: nat :| k >= 1 && Walk(r, k, x, y);
      var u := WalkUnsnoc(r, k - 1, x, y);
      EmptySphereStops(r, x, n, k - 1, u);
      var j: nat :| j <= n - 1 && Walk(r, j, x, u);
      WalkSnoc(r, j, x, u, y);
      assert false;
    }
  }

  lemma ShortestIsUnique(r: Relation, x: Id, y: Id, d: nat)
    requires Shortest(r, x, y, d)
    ensures (x, y) in Plus(r)
    ensures forall e: nat :: Shortest(r, x, y, e) ==> e == d
  {
    assert d >= 1 && Walk(r, d, x, y);
  }

  lemma ShortestConverse(r: Relation, x: Id, y: Id, d: nat)
    requires Shortest(Converse(r), y, x, d)
    ensures Shortest(r, x, y, d)
  {
    NoWalkConverse(Converse(r), y, x, d - 1);
    ConverseTwice(r);
    WalkConverse(r, d, y, x);
  }

  /** Both searches have gone `n` steps: what each has seen, what it saw last, and no
      walk from `x` to `y` of up to `2n` steps. */
  ghost predicate Progress(r: Relation, x: Id, y: Id, n: nat, near: set<Id>, nearLayer: seq<Id>, far: set<Id>, farLayer: seq<Id>) {
    && Ball(r, x, n, near) && Sphere(r, x, n, nearLayer)
    && Ball(Converse(r), y, n, far) && Sphere(Converse(r), y, n, farLayer)
    && NoWalk(r, x, y, 2 * n)
  }

  lemma ProgressConverse(r: Relation, x: Id, y: Id, n: nat, near: set<Id>, nearLayer: seq<Id>, far: set<Id>, farLayer: seq<Id>)
    requires Progress(r, x, y, n, near, nearLayer, far, farLayer)
    ensures Progress(Converse(r), y, x, n, far, farLayer, near, nearLayer)
  {
    hide Ball, Sphere, NoWalk;
    NoWalkConverse(r, x, y, 2 * n);
    ConverseTwice(r);
  }

  /** One round: a pass on the side with the smaller frontier, then one opposite. */
  method Round(ds: Dataset, pred: Id, forward: bool, near: set<Id>, nearLayer: seq<Id>, far: set<Id>, farLayer: seq<Id>,
               ghost x: Id, ghost y: Id, ghost n: nat)
      returns (hit: bool, near': set<Id>, nearLayer': seq<Id>, far': set<Id>, farLayer': seq<Id>, ghost d: nat)
    requires Progress(Direction(ds, pred, forward), x, y, n, near, nearLayer, far, farLayer)
    requires near <= Nodes(ds) + {x} && far <= Nodes(ds) + {y}
    ensures hit ==> Shortest(Direction(ds, pred, forward), x, y, d) && (d + 1) / 2 == n + 1
    ensures !hit ==> Progress(Direction(ds, pred, forward), x, y, n + 1, near', nearLayer', far', farLayer')
    ensures !hit ==> near <= near' <= Nodes(ds) + {x} && far <= far' <= Nodes(ds) + {y}
    ensures !hit && near' == near ==> nearLayer' == []
    ensures !hit && far' == far ==> farLayer' == []
  {
    hide Ball, Sphere, NoWalk, Shortest;
    ghost var r := Direction(ds, pred, forward);
    ConverseTwice(Edges(ds, pred));
    assert Converse(r) == Direction(ds, pred, !forward);
    far', farLayer', d := far, farLayer, 2 * n + 1;
    hit, near', nearLayer' := Pass(ds, pred, forward, nearLayer, near, far, x, y, n, n);
    if hit { return; }
    d := 2 * n + 2;
    NoWalkConverse(r, x, y, 2 * n + 1);
    hit, far', farLayer' := Pass(ds, pred, !forward, farLayer, far, near', y, x, n, n + 1);
    if hit {
      ShortestConverse(r, x, y, d);
    } else {
      NoWalkConverse(Converse(r), y, x, d);
      ConverseTwice(r);
    }
  }

  /** Is `target` reachable from `source` by one or more edges? A positive answer
      comes in round ceil(d / 2) when the shortest such walk has `d` edges. */
  method BidirectionalReachable(ds: Dataset, pred: Id, source: Id, target: Id) returns (found: bool, ghost rounds: nat)
    ensures found <==> (source, target) in Plus(Edges(ds, pred))
    ensures found ==> forall d: nat :: Shortest(Edges(ds, pred), source, target, d) ==> rounds == (d + 1) / 2
  {
    ghost var r := Edges(ds, pred);
    var fwdVisited, bwdVisited := {source}, {target};
    var fwdFrontier, bwdFrontier := [source], [target];
    BallOfRadiusZero(r, source);
    BallOfRadiusZero(Converse(r), target);
    assert Progress(r, source, target, 0, fwdVisited, fwdFrontier, bwdVisited, bwdFrontier);
    rounds := 0;
    ghost var fwdAll, bwdAll := Nodes(ds) + {source}, Nodes(ds) + {target};
    hide Progress, Shortest, Plus, Converse;
    while true
      invariant Progress(r, source, target, rounds, fwdVisited, fwdFrontier, bwdVisited, bwdFrontier)
      invariant fwdVisited <= fwdAll && bwdVisited <= bwdAll
      decreases fwdAll - fwdVisited, bwdAll - bwdVisited, |fwdFrontier| + |bwdFrontier|
    {
      if fwdFrontier == [] && bwdFrontier == [] {
        ProgressExhausted(r, source, target, rounds, fwdVisited, bwdVisited);
        return false, rounds;
      }
      ghost var n := rounds;
      rounds := rounds + 1;
      var hit;
      ghost var d;
      if |fwdFrontier| <= |bwdFrontier| {
        hit, fwdVisited, fwdFrontier, bwdVisited, bwdFrontier, d :=
          Round(ds, pred, true, fwdVisited, fwdFrontier, bwdVisited, bwdFrontier, source, target, n);
      } else {
        ProgressConverse(r, source, target, n, fwdVisited, fwdFrontier, bwdVisited, bwdFrontier);
        hit, bwdVisited, bwdFrontier, fwdVisited, fwdFrontier, d :=
          Round(ds, pred, false, bwdVisited, bwdFrontier, fwdVisited, fwdFrontier, target, source, n);
        if hit { ShortestConverse(r, source, target, d); }
        else {
          ProgressConverse(Converse(r), target, source, rounds, bwdVisited, bwdFrontier, fwdVisited, fwdFrontier);
          ConverseTwice(r);
        }
      }
      if hit {
        ShortestIsUnique(r, source, target, d);
        return true, rounds;
      }
    }
  }

  lemma ProgressExhausted(r: Relation, x: Id, y: Id, n: nat, near: set<Id>, far: set<Id>)
    requires Progress(r, x, y, n, near, [], far, [])
    ensures (x, y) !in Plus(r)
  {
    ExhaustedMeansUnreachable(r, x, y, n);
  }

  // ---- Dispatch on the bound endpoints ----

  /** Answers the endpoint-aware search lists; with neither end bound it declines. */
  ghost predicate BoundAnswer(ds: Dataset, pred: Id, source: Option<Id>, target: Option<Id>, identity: bool, x: Id, y: Id) {
    && Fits(source, x) && Fits(target, y)
    && (if source.Some? then Reached(ds, pred, identity, x, y) else BackwardReached(ds, pred, identity, x, y))
  }

  /** The dedicated searches answer exactly what the path algebra asks of `p+` and `p*`. */
  lemma ReachedIsPathMeaning(ds: Dataset, name: Name, x: Id, y: Id)
    requires name in ds.ids
    ensures Reached(ds, ds.ids[name], false, x, y) <==> (x, y) in Meaning(ds, OneOrMore(Pred(name)))
    ensures Reached(ds, ds.ids[name], true, x, y) <==> (x, y) in Meaning(ds, ZeroOrMore(Pred(name)))
  {
    var r := Edges(ds, ds.ids[name]);
    StarReflexive(r, x);
    if x != y { StarBeyondSelf(r, x, y); }
    if (x, y) in Plus(r) {
      var n: nat :| n >= 1 && Walk(r, n, x, y);
      assert SomeWalk(r, 0, x, y);
    }
  }

  method BfsBound(ds: Dataset, pred: Id, source: Option<Id>, target: Option<Id>, identity: bool)
      returns (r: Option<seq<(Id, Id)>>)
    ensures r.None? <==> source.None? && target.None?
    ensures r.Some? ==> Distinct(r.value)
    ensures r.Some? ==> forall x: Id, y: Id :: (x, y) in r.value <==> BoundAnswer(ds, pred, source, target, identity, x, y)
  {
    match (source, target) {
      case (Some(s), Some(t)) =>
        var found, _ := BidirectionalReachable(ds, pred, s, t);
        return Some(if found || (identity && s == t) then [(s, t)] else []);
      case (Some(s), None) =>
        var pairs := BfsForward(ds, pred, [s], identity);
        return Some(pairs);
      case (None, Some(t)) =>
        var pairs := BfsBackward(ds, pred, t, identity);
        return Some(pairs);
      case (None, None) =>
        return None;
    }
  }
}
