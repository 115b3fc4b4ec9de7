/** Runs of a path automaton over a dataset. A table holds the outgoing edges of
    each state; a run moves a (node, state) pair along them. */
module Automata {
  import opened Datasets
  import opened Relations
  import opened Paths

  datatype Edge =
    | Fwd(name: Name, target: nat)
    | Rev(name: Name, target: nat)
    | NegFwd(names: seq<Name>, target: nat)
    | NegRev(names: seq<Name>, target: nat)
    | Eps(target: nat)

  type Table = seq<seq<Edge>>

  /** The node moves one traversal of an edge may make. */
  ghost function Moves(ds: Dataset, e: Edge): Relation {
    match e
    case Fwd(n, _) => NamedEdges(ds, n)
    case Rev(n, _) => Converse(NamedEdges(ds, n))
    case NegFwd(names, _) => NegatedEdges(ds, names)
    case NegRev(names, _) => Converse(NegatedEdges(ds, names))
    case Eps(_) => Identity()
  }

  ghost predicate Along(ds: Dataset, e: Edge, x: Id, y: Id, q: nat) {
    e.target == q && (x, y) in Moves(ds, e)
  }

  ghost predicate Step(ds: Dataset, t: Table, x: Id, s: nat, y: Id, q: nat) {
    s < |t| && exists e :: e in t[s] && Along(ds, e, x, y, q)
  }

  ghost predicate Run(ds: Dataset, t: Table, n: nat, x: Id, s: nat, y: Id, q: nat) {
    if n == 0 then x == y && s == q
    else exists z, m :: Step(ds, t, x, s, z, m) && Run(ds, t, n - 1, z, m, y, q)
  }

  ghost predicate Reaches(ds: Dataset, t: Table, x: Id, s: nat, y: Id, q: nat) {
    exists n: nat :: Run(ds, t, n, x, s, y, q)
  }

  /** Every edge leads to a state of the table. */
  ghost predicate InRange(t: Table) {
    forall s, e :: 0 <= s < |t| && e in t[s] ==> e.target < |t|
  }

  lemma {:induction false} RunAppend(ds: Dataset, t: Table, n: nat, x: Id, s: nat, m: nat, y: Id, q: nat, z: Id, r: nat)
    requires Run(ds, t, n, x, s, y, q) && Run(ds, t, m, y, q, z, r)
    ensures Run(ds, t, n + m, x, s, z, r)
    decreases n
  {
    if n > 0 {
      var w, v :| Step(ds, t, x, s, w, v) && Run(ds, t, n - 1, w, v, y, q);
      RunAppend(ds, t, n - 1, w, v, m, y, q, z, r);
    }
  }

  lemma ReachesTransitive(ds: Dataset, t: Table, x: Id, s: nat, y: Id, q: nat, z: Id, r: nat)
    requires Reaches(ds, t, x, s, y, q) && Reaches(ds, t, y, q, z, r)
    ensures Reaches(ds, t, x, s, z, r)
  {
    var n: nat :| Run(ds, t, n, x, s, y, q);
    var m: nat :| Run(ds, t, m, y, q, z, r);
    RunAppend(ds, t, n, x, s, m, y, q, z, r);
  }

  lemma StepReaches(ds: Dataset, t: Table, x: Id, s: nat, y: Id, q: nat)
    requires Step(ds, t, x, s, y, q)
    ensures Reaches(ds, t, x, s, y, q)
  {
    assert Run(ds, t, 0, y, q, y, q);
    assert Run(ds, t, 1, x, s, y, q);
  }

  lemma EpsReaches(ds: Dataset, t: Table, x: Id, s: nat, q: nat)
    requires s < |t| && Eps(q) in t[s]
    ensures Reaches(ds, t, x, s, x, q)
  {
    assert Along(ds, Eps(q), x, x, q);
    StepReaches(ds, t, x, s, x, q);
  }
}

/** Thompson construction: a path expression becomes a fragment of a growing edge
    table, and start-to-accept runs of the fragment are exactly the path's meaning. */
module Nfas {
  import opened Datasets
  import opened Relations
  import opened Paths
  import opened Automata

  /** States `lo..` of `t` form a closed fragment that nothing inside re-enters at
      `start` and that nothing leaves from `accept`. */
  ghost predicate Fragment(t: Table, lo: nat, start: nat, accept: nat) {
    && lo <= start < |t| && lo <= accept < |t| && start != accept
    && (forall s, e :: lo <= s < |t| && e in t[s] ==> lo <= e.target < |t| && e.target != start)
    && t[accept] == []
  }

  /** Start-to-accept runs relate exactly the pairs of `path`, on every dataset. */
  ghost predicate Exact(t: Table, start: nat, accept: nat, path: Path) {
    forall ds, x: Id, y: Id :: Reaches(ds, t, x, start, y, accept) <==> (x, y) in Meaning(ds, path)
  }

  /** `t` continues `inner`: outside its accept state the fragment is untouched. */
  ghost predicate Continues(t: Table, inner: Table, lo: nat, accept: nat) {
    && |inner| <= |t|
    && (forall s :: lo <= s < |inner| && s != accept ==> t[s] == inner[s])
  }

  lemma RunEmpty(ds: Dataset, t: Table, x: Id, s: nat, y: Id, q: nat)
    ensures Run(ds, t, 0, x, s, y, q) <==> x == y && s == q
  {
  }

  lemma RunCons(ds: Dataset, t: Table, n: nat, x: Id, s: nat, w: Id, m: nat, y: Id, q: nat)
    requires Step(ds, t, x, s, w, m) && Run(ds, t, n, w, m, y, q)
    ensures Run(ds, t, n + 1, x, s, y, q)
  {
  }

  lemma RunUncons(ds: Dataset, t: Table, n: nat, x: Id, s: nat, y: Id, q: nat) returns (w: Id, m: nat)
    requires n > 0 && Run(ds, t, n, x, s, y, q)
    ensures Step(ds, t, x, s, w, m) && Run(ds, t, n - 1, w, m, y, q)
  {
    w, m :| Step(ds, t, x, s, w, m) && Run(ds, t, n - 1, w, m, y, q);
  }

  lemma StepStaysInside(ds: Dataset, t: Table, inner: Table, lo: nat, start: nat, accept: nat, x: Id, s: nat, w: Id, m: nat)
    requires Fragment(inner, lo, start, accept) && Continues(t, inner, lo, accept)
    requires lo <= s < |inner| && s != accept && Step(ds, t, x, s, w, m)
    ensures Step(ds, inner, x, s, w, m) && lo <= m < |inner|
  {
  }

  /** However many edges are added around it, a run that starts inside a fragment
      either stays a run of the fragment or first reaches its accept state. */
  lemma {:induction false} LeavesThroughAccept(ds: Dataset, t: Table, inner: Table, lo: nat, start: nat, accept: nat,
                                               n: nat, x: Id, s: nat, y: Id, q: nat)
      returns (stays: bool, k: nat, z: Id)
    requires Fragment(inner, lo, start, accept) && Continues(t, inner, lo, accept)
    requires lo <= s < |inner| && Run(ds, t, n, x, s, y, q)
    ensures stays ==> Run(ds, inner, n, x, s, y, q) && lo <= q < |inner|
    ensures !stays ==> k < n && Run(ds, inner, k, x, s, z, accept) && Run(ds, t, n - k, z, accept, y, q)
    decreases n
  {
    hide Fragment, Continues, Step, Run;
    if n == 0 {
      RunEmpty(ds, t, x, s, y, q);
      RunEmpty(ds, inner, x, s, y, q);
      return true, 0, x;
    } else if s == accept {
      RunEmpty(ds, inner, x, s, x, accept);
      return false, 0, x;
    } else {
      var w, m := RunUncons(ds, t, n, x, s, y, q);
      StepStaysInside(ds, t, inner, lo, start, accept, x, s, w, m);
      stays, k, z := LeavesThroughAccept(ds, t, inner, lo, start, accept, n - 1, w, m, y, q);
      if stays { RunCons(ds, inner, n - 1, x, s, w, m, y, q); } else { RunCons(ds, inner, k, x, s, w, m, z, accept); }
      k := k + 1;
    }
  }

  /** Adding edges keeps every run. */
  lemma {:induction false} RunsSurvive(ds: Dataset, t: Table, inner: Table, lo: nat, start: nat, accept: nat,
                                       n: nat, x: Id, s: nat, y: Id, q: nat)
    requires Fragment(inner, lo, start, accept) && Continues(t, inner, lo, accept)
    requires lo <= s < |inner| && Run(ds, inner, n, x, s, y, q)
    ensures Run(ds, t, n, x, s, y, q)
    decreases n
  {
    if n > 0 {
      var w, m :| Step(ds, inner, x, s, w, m) && Run(ds, inner, n - 1, w, m, y, q);
      assert Step(ds, t, x, s, w, m);
      RunsSurvive(ds, t, inner, lo, start, accept, n - 1, w, m, y, q);
    }
  }

  lemma FragmentRunsSurvive(ds: Dataset, t: Table, inner: Table, lo: nat, start: nat, accept: nat, path: Path, x: Id, y: Id)
    requires Fragment(inner, lo, start, accept) && Continues(t, inner, lo, accept)
    requires Exact(inner, start, accept, path) && (x, y) in Meaning(ds, path)
    ensures Reaches(ds, t, x, start, y, accept)
  {
    assert Reaches(ds, inner, x, start, y, accept);
    var n: nat :| Run(ds, inner, n, x, start, y, accept);
    RunsSurvive(ds, t, inner, lo, start, accept, n, x, start, y, accept);
  }

  /** A run from a fragment's start that ends outside it crosses the fragment by a
      pair of its path and then takes a step out of the accept state. */
  lemma CrossFragment(ds: Dataset, t: Table, inner: Table, lo: nat, start: nat, accept: nat, path: Path,
                      n: nat, x: Id, y: Id, q: nat)
      returns (k: nat, z: Id, w: Id, m: nat)
    requires Fragment(inner, lo, start, accept) && Continues(t, inner, lo, accept) && Exact(inner, start, accept, path)
    requires Run(ds, t, n, x, start, y, q) && !(lo <= q < |inner|)
    ensures (x, z) in Meaning(ds, path)
    ensures k < n && Step(ds, t, z, accept, w, m) && Run(ds, t, k, w, m, y, q)
  {
    var stays, j, c := LeavesThroughAccept(ds, t, inner, lo, start, accept, n, x, start, y, q);
    assert !stays;
    assert Reaches(ds, inner, x, start, c, accept);
    z, k := c, n - j - 1;
    w, m :| Step(ds, t, z, accept, w, m) && Run(ds, t, k, w, m, y, q);
  }

  // ---- Leaves ----

  lemma LeafExact(t: Table, lo: nat, e: Edge, path: Path)
    requires |t| == lo + 2 && t[lo] == [e] && t[lo + 1] == [] && e.target == lo + 1
    requires forall ds :: Moves(ds, e) == Meaning(ds, path)
    ensures Fragment(t, lo, lo, lo + 1) && Exact(t, lo, lo + 1, path)
  {
    var hi := lo + 1;
    forall ds, x: Id, y: Id ensures Reaches(ds, t, x, lo, y, hi) <==> (x, y) in Meaning(ds, path) {
      if (x, y) in Meaning(ds, path) {
        assert Along(ds, e, x, y, lo + 1);
        StepReaches(ds, t, x, lo, y, lo + 1);
      }
      if Reaches(ds, t, x, lo, y, hi) {
        var n: nat :| Run(ds, t, n, x, lo, y, hi);
        var z, m :| Step(ds, t, x, lo, z, m) && Run(ds, t, n - 1, z, m, y, lo + 1);
        StuckAtEnd(ds, t, n - 1, z, m, y, lo + 1);
      }
    }
  }

  lemma StuckAtEnd(ds: Dataset, t: Table, n: nat, x: Id, s: nat, y: Id, q: nat)
    requires Run(ds, t, n, x, s, y, q) && s < |t| && t[s] == []
    ensures n == 0 && x == y && s == q
  {
    assert forall z, m :: !Step(ds, t, x, s, z, m);
  }

  // ---- Sequence ----

  lemma SequenceExact(ta: Table, lo: nat, a0: nat, a1: nat, a: Path, tb: Table, b0: nat, b1: nat, b: Path, t: Table)
    requires Fragment(ta, lo, a0, a1) && Exact(ta, a0, a1, a)
    requires Fragment(tb, |ta|, b0, b1) && Exact(tb, b0, b1, b)
    requires (forall s :: 0 <= s < |ta| ==> tb[s] == ta[s]) && t == tb[a1 := tb[a1] + [Eps(b0)]]
    ensures Fragment(t, lo, a0, b1) && Exact(t, a0, b1, Sequence(a, b))
  {
    assert Continues(t, ta, lo, a1) && Continues(t, tb, |ta|, b1);
    forall ds, x: Id, y: Id ensures Reaches(ds, t, x, a0, y, b1) <==> (x, y) in Meaning(ds, Sequence(a, b)) {
      if (x, y) in Meaning(ds, Sequence(a, b)) {
        var z :| (x, z) in Meaning(ds, a) && (z, y) in Meaning(ds, b);
        FragmentRunsSurvive(ds, t, ta, lo, a0, a1, a, x, z);
        FragmentRunsSurvive(ds, t, tb, |ta|, b0, b1, b, z, y);
        EpsReaches(ds, t, z, a1, b0);
        ReachesTransitive(ds, t, x, a0, z, a1, z, b0);
        ReachesTransitive(ds, t, x, a0, z, b0, y, b1);
      }
      if Reaches(ds, t, x, a0, y, b1) {
        var n: nat :| Run(ds, t, n, x, a0, y, b1);
        var k, z, w, m := CrossFragment(ds, t, ta, lo, a0, a1, a, n, x, y, b1);
        assert w == z && m == b0;
        RunToAccept(ds, t, tb, |ta|, b0, b1, b, k, z, y);
      }
    }
  }

  /** A fragment whose accept state gained no edge is still exact in the larger table. */
  lemma RunToAccept(ds: Dataset, t: Table, inner: Table, lo: nat, start: nat, accept: nat, path: Path, n: nat, x: Id, y: Id)
    requires Fragment(inner, lo, start, accept) && Continues(t, inner, lo, accept) && Exact(inner, start, accept, path)
    requires t[accept] == [] && Run(ds, t, n, x, start, y, accept)
    ensures (x, y) in Meaning(ds, path)
  {
    var stays, k, z := LeavesThroughAccept(ds, t, inner, lo, start, accept, n, x, start, y, accept);
    if stays {
      assert Reaches(ds, inner, x, start, y, accept);
    } else {
      assert false;
    }
  }

  /** Later growth that leaves the accept state alone keeps a fragment exact. */
  lemma StaysExact(t: Table, inner: Table, lo: nat, start: nat, accept: nat, path: Path)
    requires Fragment(inner, lo, start, accept) && Continues(t, inner, lo, accept) && Exact(inner, start, accept, path)
    requires t[accept] == []
    ensures Exact(t, start, accept, path)
  {
    forall ds, x: Id, y: Id ensures Reaches(ds, t, x, start, y, accept) <==> (x, y) in Meaning(ds, path) {
      if (x, y) in Meaning(ds, path) {
        FragmentRunsSurvive(ds, t, inner, lo, start, accept, path, x, y);
      } else if Reaches(ds, t, x, start, y, accept) {
        var n: nat :| Run(ds, t, n, x, start, y, accept);
        RunToAccept(ds, t, inner, lo, start, accept, path, n, x, y);
      }
    }
  }

  // ---- Alternative ----

  /** `t` is `tb` with a fresh entry and exit wired around two fragments. */
  ghost predicate Branches(t: Table, ta: Table, tb: Table, lo: nat, a0: nat, a1: nat, b0: nat, b1: nat) {
    && lo + 2 <= |ta| <= |tb| == |t| && (forall s :: 0 <= s < |ta| ==> tb[s] == ta[s])
    && Fragment(ta, lo + 2, a0, a1) && Fragment(tb, |ta|, b0, b1)
    && t[lo] == [Eps(a0), Eps(b0)] && t[lo + 1] == []
    && t[a1] == [Eps(lo + 1)] && t[b1] == [Eps(lo + 1)]
    && (forall s :: lo + 2 <= s < |t| && s != a1 && s != b1 ==> t[s] == tb[s])
  }

  lemma BranchesContinue(t: Table, ta: Table, tb: Table, lo: nat, a0: nat, a1: nat, b0: nat, b1: nat)
    requires Branches(t, ta, tb, lo, a0, a1, b0, b1)
    ensures Continues(t, ta, lo + 2, a1) && Continues(t, tb, |ta|, b1)
    ensures Fragment(t, lo, lo, lo + 1)
  {
  }

  /** A run leaving a state that has only epsilon edges first changes state alone. */
  lemma FirstEps(ds: Dataset, t: Table, n: nat, x: Id, s: nat, y: Id, q: nat) returns (m: nat)
    requires Run(ds, t, n, x, s, y, q) && s < |t| && s != q
    requires forall e :: e in t[s] ==> e.Eps?
    ensures n > 0 && Eps(m) in t[s] && Run(ds, t, n - 1, x, m, y, q)
  {
    var z, k :| Step(ds, t, x, s, z, k) && Run(ds, t, n - 1, z, k, y, q);
    m := k;
  }

  /** Crossing a fragment whose only way out leads to the dead end `hi`. */
  lemma BranchSound(ds: Dataset, t: Table, inner: Table, lo: nat, start: nat, accept: nat, path: Path, hi: nat,
                    n: nat, x: Id, y: Id)
    requires Fragment(inner, lo, start, accept) && Continues(t, inner, lo, accept) && Exact(inner, start, accept, path)
    requires hi < lo && hi < |t| && t[hi] == [] && t[accept] == [Eps(hi)]
    requires Run(ds, t, n, x, start, y, hi)
    ensures (x, y) in Meaning(ds, path)
  {
    var k, z, w, m := CrossFragment(ds, t, inner, lo, start, accept, path, n, x, y, hi);
    StuckAtEnd(ds, t, k, w, m, y, hi);
  }

  lemma AlternativeSound(ds: Dataset, t: Table, ta: Table, tb: Table, lo: nat, a0: nat, a1: nat, a: Path, b0: nat, b1: nat,
                         b: Path, n: nat, x: Id, y: Id)
    requires Branches(t, ta, tb, lo, a0, a1, b0, b1) && Exact(ta, a0, a1, a) && Exact(tb, b0, b1, b)
    requires Run(ds, t, n, x, lo, y, lo + 1)
    ensures (x, y) in Meaning(ds, Alternative(a, b))
  {
    hide Exact, Run, Fragment, Continues, InRange;
    BranchesContinue(t, ta, tb, lo, a0, a1, b0, b1);
    var m := FirstEps(ds, t, n, x, lo, y, lo + 1);
    if m == a0 {
      BranchSound(ds, t, ta, lo + 2, a0, a1, a, lo + 1, n - 1, x, y);
    } else {
      BranchSound(ds, t, tb, |ta|, b0, b1, b, lo + 1, n - 1, x, y);
    }
  }

  lemma AlternativeExact(t: Table, ta: Table, tb: Table, lo: nat, a0: nat, a1: nat, a: Path, b0: nat, b1: nat, b: Path)
    requires Branches(t, ta, tb, lo, a0, a1, b0, b1) && Exact(ta, a0, a1, a) && Exact(tb, b0, b1, b)
    ensures Fragment(t, lo, lo, lo + 1) && Exact(t, lo, lo + 1, Alternative(a, b))
  {
    BranchesContinue(t, ta, tb, lo, a0, a1, b0, b1);
    var hi := lo + 1;
    forall ds, x: Id, y: Id ensures Reaches(ds, t, x, lo, y, hi) <==> (x, y) in Meaning(ds, Alternative(a, b)) {
      if (x, y) in Meaning(ds, a) {
        FragmentRunsSurvive(ds, t, ta, lo + 2, a0, a1, a, x, y);
        ThroughBranch(ds, t, lo, a0, a1, x, y);
      } else if (x, y) in Meaning(ds, b) {
        FragmentRunsSurvive(ds, t, tb, |ta|, b0, b1, b, x, y);
        ThroughBranch(ds, t, lo, b0, b1, x, y);
      } else if Reaches(ds, t, x, lo, y, hi) {
        var n: nat :| Run(ds, t, n, x, lo, y, hi);
        AlternativeSound(ds, t, ta, tb, lo, a0, a1, a, b0, b1, b, n, x, y);
      }
    }
  }

  lemma ThroughBranch(ds: Dataset, t: Table, lo: nat, i0: nat, i1: nat, x: Id, y: Id)
    requires lo < |t| && i1 < |t| && Eps(i0) in t[lo] && Eps(lo + 1) in t[i1]
    requires Reaches(ds, t, x, i0, y, i1)
    ensures Reaches(ds, t, x, lo, y, lo + 1)
  {
    EpsReaches(ds, t, x, lo, i0);
    EpsReaches(ds, t, y, i1, lo + 1);
    ReachesTransitive(ds, t, x, lo, x, i0, y, i1);
    ReachesTransitive(ds, t, x, lo, y, i1, y, lo + 1);
  }

  // ---- Repetition ----

  /** The wiring shared by `?`, `+` and `*`: `skip` bypasses the inner fragment,
      `loop` re-enters it. */
  ghost predicate Wraps(t: Table, ti: Table, lo: nat, i0: nat, i1: nat, skip: bool, loop: bool) {
    && lo + 2 <= |ti| == |t| && Fragment(ti, lo + 2, i0, i1)
    && t[lo] == [Eps(i0)] + (if skip then [Eps(lo + 1)] else []) && t[lo + 1] == []
    && t[i1] == (if loop then [Eps(i0)] else []) + [Eps(lo + 1)]
    && (forall s :: lo + 2 <= s < |t| && s != i1 ==> t[s] == ti[s])
  }

  ghost function Repeated(r: Relation, skip: bool, loop: bool): Relation {
    (if skip then Identity() else iset{}) + (if loop then Plus(r) else r)
  }

  lemma RepeatedIsOperator(r: Relation)
    ensures Repeated(r, true, true) == Star(r)
    ensures Repeated(r, false, true) == Plus(r)
    ensures Repeated(r, true, false) == Identity() + r
  {
    forall p ensures p in Identity() || p in Plus(r) <==> p in Star(r) {
      if p in Identity() { assert Walk(r, 0, p.0, p.1); }
      if n: nat :| n >= 0 && Walk(r, n, p.0, p.1) { assert n == 0 || SomeWalk(r, 1, p.0, p.1); }
    }
  }

  lemma {:induction false} LoopSound(ds: Dataset, t: Table, ti: Table, lo: nat, i0: nat, i1: nat, skip: bool, loop: bool,
                                     inner: Path, n: nat, x: Id, y: Id)
    requires Wraps(t, ti, lo, i0, i1, skip, loop) && Exact(ti, i0, i1, inner)
    requires Run(ds, t, n, x, i0, y, lo + 1)
    ensures (x, y) in Repeated(Meaning(ds, inner), false, loop)
    decreases n
  {
    var r := Meaning(ds, inner);
    assert Continues(t, ti, lo + 2, i1);
    var k, z, w, m := CrossFragment(ds, t, ti, lo + 2, i0, i1, inner, n, x, y, lo + 1);
    assert w == z;
    if m == lo + 1 {
      StuckAtEnd(ds, t, k, w, m, y, lo + 1);
      WalkOne(r, x, y);
    } else {
      LoopSound(ds, t, ti, lo, i0, i1, skip, loop, inner, k, z, y);
      var j: nat :| j >= 1 && Walk(r, j, z, y);
      assert Walk(r, j + 1, x, y);
    }
  }

  lemma {:induction false} LoopComplete(ds: Dataset, t: Table, ti: Table, lo: nat, i0: nat, i1: nat, skip: bool,
                                        inner: Path, n: nat, x: Id, y: Id)
    requires Wraps(t, ti, lo, i0, i1, skip, true) && Exact(ti, i0, i1, inner)
    requires n > 0 && Walk(Meaning(ds, inner), n, x, y)
    ensures Reaches(ds, t, x, i0, y, i1)
    decreases n
  {
    assert Continues(t, ti, lo + 2, i1);
    var z :| (x, z) in Meaning(ds, inner) && Walk(Meaning(ds, inner), n - 1, z, y);
    FragmentRunsSurvive(ds, t, ti, lo + 2, i0, i1, inner, x, z);
    if n > 1 {
      LoopComplete(ds, t, ti, lo, i0, i1, skip, inner, n - 1, z, y);
      EpsReaches(ds, t, z, i1, i0);
      ReachesTransitive(ds, t, x, i0, z, i1, z, i0);
      ReachesTransitive(ds, t, x, i0, z, i0, y, i1);
    }
  }

  lemma WrapSound(ds: Dataset, t: Table, ti: Table, lo: nat, i0: nat, i1: nat, skip: bool, loop: bool, inner: Path,
                  n: nat, x: Id, y: Id)
    requires Wraps(t, ti, lo, i0, i1, skip, loop) && Exact(ti, i0, i1, inner)
    requires Run(ds, t, n, x, lo, y, lo + 1)
    ensures (x, y) in Repeated(Meaning(ds, inner), skip, loop)
  {
    var m := FirstEps(ds, t, n, x, lo, y, lo + 1);
    if m == lo + 1 {
      StuckAtEnd(ds, t, n - 1, x, m, y, lo + 1);
    } else {
      LoopSound(ds, t, ti, lo, i0, i1, skip, loop, inner, n - 1, x, y);
    }
  }

  lemma WrapComplete(ds: Dataset, t: Table, ti: Table, lo: nat, i0: nat, i1: nat, skip: bool, loop: bool, inner: Path,
                     x: Id, y: Id)
    requires Wraps(t, ti, lo, i0, i1, skip, loop) && Exact(ti, i0, i1, inner)
    requires (x, y) in Repeated(Meaning(ds, inner), skip, loop)
    ensures Reaches(ds, t, x, lo, y, lo + 1)
  {
    var r := Meaning(ds, inner);
    if skip && x == y {
      EpsReaches(ds, t, x, lo, lo + 1);
    } else {
      if loop {
        var n: nat :| n >= 1 && Walk(r, n, x, y);
        LoopComplete(ds, t, ti, lo, i0, i1, skip, inner, n, x, y);
      } else {
        FragmentRunsSurvive(ds, t, ti, lo + 2, i0, i1, inner, x, y);
      }
      ThroughBranch(ds, t, lo, i0, i1, x, y);
    }
  }

  lemma WrapExact(t: Table, ti: Table, lo: nat, i0: nat, i1: nat, skip: bool, loop: bool, inner: Path, path: Path)
    requires Wraps(t, ti, lo, i0, i1, skip, loop) && Exact(ti, i0, i1, inner)
    requires forall ds :: Meaning(ds, path) == Repeated(Meaning(ds, inner), skip, loop)
    ensures Fragment(t, lo, lo, lo + 1) && Exact(t, lo, lo + 1, path)
  {
    var hi := lo + 1;
    forall ds, x: Id, y: Id ensures Reaches(ds, t, x, lo, y, hi) <==> (x, y) in Meaning(ds, path) {
      if (x, y) in Meaning(ds, path) {
        WrapComplete(ds, t, ti, lo, i0, i1, skip, loop, inner, x, y);
      } else if Reaches(ds, t, x, lo, y, hi) {
        var n: nat :| Run(ds, t, n, x, lo, y, hi);
        WrapSound(ds, t, ti, lo, i0, i1, skip, loop, inner, n, x, y);
      }
    }
  }

  lemma OperatorMeanings(a: Path)
    ensures forall ds :: Meaning(ds, ZeroOrMore(a)) == Repeated(Meaning(ds, a), true, true)
    ensures forall ds :: Meaning(ds, OneOrMore(a)) == Repeated(Meaning(ds, a), false, true)
    ensures forall ds :: Meaning(ds, ZeroOrOne(a)) == Repeated(Meaning(ds, a), true, false)
  {
    forall ds { RepeatedIsOperator(Meaning(ds, a)); }
  }

  // ---- The compiler ----

  /** What compiling `path` does to the edge table. */
  ghost predicate Grown(before: Table, after: Table, start: nat, accept: nat, path: Path) {
    && |before| <= |after| && (forall s :: 0 <= s < |before| ==> after[s] == before[s])
    && Fragment(after, |before|, start, accept)
    && Exact(after, start, accept, path)
  }

  lemma SequenceGrows(t0: Table, ta: Table, a0: nat, a1: nat, a: Path, tb: Table, b0: nat, b1: nat, b: Path, t: Table)
    requires Grown(t0, ta, a0, a1, a) && Grown(ta, tb, b0, b1, b)
    requires t == tb[a1 := tb[a1] + [Eps(b0)]]
    ensures Grown(t0, t, a0, b1, Sequence(a, b))
  {
    SequenceExact(ta, |t0|, a0, a1, a, tb, b0, b1, b, t);
  }

  lemma AlternativeGrows(t0: Table, ta: Table, a0: nat, a1: nat, a: Path, tb: Table, b0: nat, b1: nat, b: Path, t: Table)
    requires Grown(t0 + [[], []], ta, a0, a1, a) && Grown(ta, tb, b0, b1, b)
    requires |t| == |tb| && t[|t0|] == [Eps(a0), Eps(b0)] && t[a1] == [Eps(|t0| + 1)] && t[b1] == [Eps(|t0| + 1)]
    requires forall s :: 0 <= s < |t| && s != |t0| && s != a1 && s != b1 ==> t[s] == tb[s]
    ensures Grown(t0, t, |t0|, |t0| + 1, Alternative(a, b))
  {
    assert tb[|t0| + 1] == (t0 + [[], []])[|t0| + 1] == [];
    assert Branches(t, ta, tb, |t0|, a0, a1, b0, b1);
    AlternativeExact(t, ta, tb, |t0|, a0, a1, a, b0, b1, b);
    forall s | 0 <= s < |t0| ensures t[s] == t0[s] { assert (t0 + [[], []])[s] == t0[s]; }
  }

  lemma RepetitionGrows(t0: Table, ti: Table, i0: nat, i1: nat, inner: Path, skip: bool, loop: bool, path: Path, t: Table)
    requires Grown(t0 + [[], []], ti, i0, i1, inner)
    requires |t| == |ti| && t[|t0|] == [Eps(i0)] + (if skip then [Eps(|t0| + 1)] else [])
    requires t[i1] == (if loop then [Eps(i0)] else []) + [Eps(|t0| + 1)]
    requires forall s :: 0 <= s < |t| && s != |t0| && s != i1 ==> t[s] == ti[s]
    requires forall ds :: Meaning(ds, path) == Repeated(Meaning(ds, inner), skip, loop)
    ensures Grown(t0, t, |t0|, |t0| + 1, path)
  {
    assert ti[|t0| + 1] == (t0 + [[], []])[|t0| + 1] == [];
    assert Wraps(t, ti, |t0|, i0, i1, skip, loop);
    WrapExact(t, ti, |t0|, i0, i1, skip, loop, inner, path);
    forall s | 0 <= s < |t0| ensures t[s] == t0[s] { assert (t0 + [[], []])[s] == t0[s]; }
  }

  class Nfa {
    var edges: Table

    constructor ()
      ensures edges == []
    {
      edges := [];
    }

    method NewState() returns (s: nat)
      modifies this
      ensures s == |old(edges)| && edges == old(edges) + [[]]
    {
      edges := edges + [[]];
      s := |edges| - 1;
    }

    method AddEdge(s: nat, e: Edge)
      requires s < |edges|
      modifies this
      ensures edges == old(edges)[s := old(edges)[s] + [e]]
    {
      edges := edges[s := edges[s] + [e]];
    }

    /** Two fresh states joined by one edge. */
    method Leaf(e: Edge, ghost path: Path) returns (start: nat, accept: nat)
      requires e.target == |edges| + 1
      requires forall ds :: Moves(ds, e) == Meaning(ds, path)
      modifies this
      ensures Grown(old(edges), edges, start, accept, path)
    {
      start := NewState();
      accept := NewState();
      AddEdge(start, e);
      LeafExact(edges, start, e, path);
    }

    /** The wiring of `*` (skip and loop), `+` (loop) and `?` (skip) around `inner`. */
    method Repetition(inner: Path, skip: bool, loop: bool, ghost path: Path) returns (start: nat, accept: nat)
      requires Normalized(inner)
      requires inner < path && forall ds :: Meaning(ds, path) == Repeated(Meaning(ds, inner), skip, loop)
      modifies this
      ensures Grown(old(edges), edges, start, accept, path)
      decreases path, 0
    {
      ghost var t0 := edges;
      start := NewState();
      accept := NewState();
      assert edges == t0 + [[], []];
      var i0, i1 := Compile(inner);
      ghost var ti := edges;
      assert ti[start] == (t0 + [[], []])[start] == [];
      AddEdge(start, Eps(i0));
      if skip { AddEdge(start, Eps(accept)); }
      if loop { AddEdge(i1, Eps(i0)); }
      AddEdge(i1, Eps(accept));
      RepetitionGrows(t0, ti, i0, i1, inner, skip, loop, path, edges);
    }

    /** Compiles a normalized path into fresh states. The states that existed
        before keep their edges; the new ones form a fragment exact for `path`. */
    method Compile(path: Path) returns (start: nat, accept: nat)
      requires Normalized(path)
      modifies this
      ensures Grown(old(edges), edges, start, accept, path)
      decreases path
    {
      var lo := |edges|;
      ghost var t0 := edges;
      match path {
        case Pred(n) => start, accept := Leaf(Fwd(n, lo + 1), path);
        case NegatedSet(names) => start, accept := Leaf(NegFwd(names, lo + 1), path);
        case Reverse(inner) =>
          match inner {
            case Pred(n) => start, accept := Leaf(Rev(n, lo + 1), path);
            case NegatedSet(names) => start, accept := Leaf(NegRev(names, lo + 1), path);
          }
        case Sequence(a, b) =>
          var a0, a1 := Compile(a);
          ghost var ta := edges;
          var b0, b1 := Compile(b);
          ghost var tb := edges;
          AddEdge(a1, Eps(b0));
          SequenceGrows(t0, ta, a0, a1, a, tb, b0, b1, b, edges);
          start, accept := a0, b1;
        case Alternative(a, b) => start, accept := Choice(a, b);
        case ZeroOrMore(a) => OperatorMeanings(a); start, accept := Repetition(a, true, true, path);
        case OneOrMore(a) => OperatorMeanings(a); start, accept := Repetition(a, false, true, path);
        case ZeroOrOne(a) => OperatorMeanings(a); start, accept := Repetition(a, true, false, path);
      }
    }

    method WireChoice(start: nat, accept: nat, a0: nat, a1: nat, b0: nat, b1: nat)
      requires start < accept < a1 < b1 < |edges| && edges[start] == [] && edges[a1] == [] && edges[b1] == []
      modifies this
      ensures |edges| == |old(edges)| && edges[start] == [Eps(a0), Eps(b0)]
      ensures edges[a1] == [Eps(accept)] && edges[b1] == [Eps(accept)]
      ensures forall s :: 0 <= s < |edges| && s != start && s != a1 && s != b1 ==> edges[s] == old(edges)[s]
    {
      AddEdge(start, Eps(a0));
      AddEdge(start, Eps(b0));
      AddEdge(a1, Eps(accept));
      AddEdge(b1, Eps(accept));
    }

    method Choice(a: Path, b: Path) returns (start: nat, accept: nat)
      requires Normalized(a) && Normalized(b)
      modifies this
      ensures Grown(old(edges), edges, start, accept, Alternative(a, b))
      decreases Alternative(a, b), 0
    {
      ghost var t0 := edges;
      start := NewState();
      accept := NewState();
      assert edges == t0 + [[], []];
      var a0, a1 := Compile(a);
      ghost var ta := edges;
      var b0, b1 := Compile(b);
      ghost var tb := edges;
      assert tb[start] == (t0 + [[], []])[start] == [] && tb[a1] == ta[a1] == [] && tb[b1] == [];
      WireChoice(start, accept, a0, a1, b0, b1);
      AlternativeGrows(t0, ta, a0, a1, a, tb, b0, b1, b, edges);
    }
  }
}
