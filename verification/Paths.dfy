/** Binary relations on node ids and the operators property paths are built from. */
module Relations {
  import opened Datasets

  type Relation = iset<(Id, Id)>

  ghost function Converse(r: Relation): Relation { iset p: (Id, Id) | (p.1, p.0) in r }

  ghost function Compose(r: Relation, s: Relation): Relation {
    iset p: (Id, Id) | exists z :: (p.0, z) in r && (z, p.1) in s
  }

  ghost function Identity(): Relation { iset p: (Id, Id) | p.0 == p.1 }

  /** `y` is reached from `x` by `n` steps of `r`. */
  ghost predicate Walk(r: Relation, n: nat, x: Id, y: Id) {
    if n == 0 then x == y else exists z :: (x, z) in r && Walk(r, n - 1, z, y)
  }

  ghost predicate SomeWalk(r: Relation, least: nat, x: Id, y: Id) {
    exists n: nat :: n >= least && Walk(r, n, x, y)
  }

  ghost function Plus(r: Relation): Relation { iset p: (Id, Id) | SomeWalk(r, 1, p.0, p.1) }

  ghost function Star(r: Relation): Relation { iset p: (Id, Id) | SomeWalk(r, 0, p.0, p.1) }

  lemma ConverseCompose(r: Relation, s: Relation)
    ensures Converse(Compose(r, s)) == Compose(Converse(s), Converse(r))
  {
    forall p ensures p in Converse(Compose(r, s)) <==> p in Compose(Converse(s), Converse(r)) {
      if p in Converse(Compose(r, s)) {
        var z :| (p.1, z) in r && (z, p.0) in s;
        assert (p.0, z) in Converse(s) && (z, p.1) in Converse(r);
      }
      if p in Compose(Converse(s), Converse(r)) {
        var z :| (p.0, z) in Converse(s) && (z, p.1) in Converse(r);
        assert (p.1, z) in r && (z, p.0) in s;
      }
    }
  }

  lemma {:induction false} WalkJoin(r: Relation, m: nat, n: nat, x: Id, y: Id, z: Id)
    requires Walk(r, m, x, y) && Walk(r, n, y, z)
    ensures Walk(r, m + n, x, z)
    decreases m
  {
    if m > 0 {
      var w :| (x, w) in r && Walk(r, m - 1, w, y);
      WalkJoin(r, m - 1, n, w, y, z);
    }
  }

  lemma {:induction false} WalkSplit(r: Relation, m: nat, n: nat, x: Id, z: Id) returns (y: Id)
    requires Walk(r, m + n, x, z)
    ensures Walk(r, m, x, y) && Walk(r, n, y, z)
    decreases m
  {
    if m == 0 {
      y := x;
    } else {
      var w :| (x, w) in r && Walk(r, m + n - 1, w, z);
      y := WalkSplit(r, m - 1, n, w, z);
    }
  }

  lemma WalkOne(r: Relation, x: Id, y: Id)
    ensures Walk(r, 1, x, y) <==> (x, y) in r
  {
    if (x, y) in r { assert Walk(r, 0, y, y); }
  }

  lemma WalkSnoc(r: Relation, n: nat, x: Id, y: Id, z: Id)
    requires Walk(r, n, x, y) && (y, z) in r
    ensures Walk(r, n + 1, x, z)
  {
    WalkOne(r, y, z);
    WalkJoin(r, n, 1, x, y, z);
  }

  lemma WalkUnsnoc(r: Relation, n: nat, x: Id, z: Id) returns (y: Id)
    requires Walk(r, n + 1, x, z)
    ensures Walk(r, n, x, y) && (y, z) in r
  {
    y := WalkSplit(r, n, 1, x, z);
    WalkOne(r, y, z);
  }

  lemma {:induction false} WalkReversed(r: Relation, n: nat, x: Id, y: Id)
    requires Walk(r, n, x, y)
    ensures Walk(Converse(r), n, y, x)
    decreases n
  {
    if n > 0 {
      var z :| (x, z) in r && Walk(r, n - 1, z, y);
      WalkReversed(r, n - 1, z, y);
      WalkSnoc(Converse(r), n - 1, y, z, x);
    }
  }

  lemma ConverseTwice(r: Relation)
    ensures Converse(Converse(r)) == r
  {
    forall x: Id, y: Id ensures (x, y) in Converse(Converse(r)) <==> (x, y) in r {
      assert (x, y) in Converse(Converse(r)) <==> (y, x) in Converse(r);
    }
  }

  lemma WalkConverse(r: Relation, n: nat, x: Id, y: Id)
    ensures Walk(Converse(r), n, x, y) <==> Walk(r, n, y, x)
  {
    ConverseTwice(r);
    if Walk(r, n, y, x) { WalkReversed(r, n, y, x); }
    if Walk(Converse(r), n, x, y) { WalkReversed(Converse(r), n, x, y); }
  }

  lemma ConverseClosures(r: Relation)
    ensures Converse(Star(r)) == Star(Converse(r))
    ensures Converse(Plus(r)) == Plus(Converse(r))
  {
    forall x: Id, y: Id, n: nat ensures Walk(Converse(r), n, x, y) <==> Walk(r, n, y, x) { WalkConverse(r, n, x, y); }
    forall x: Id, y: Id, k: nat ensures SomeWalk(Converse(r), k, x, y) <==> SomeWalk(r, k, y, x) {
      if SomeWalk(r, k, y, x) {
        var n: nat :| n >= k && Walk(r, n, y, x);
        assert Walk(Converse(r), n, x, y);
      }
    }
  }
}

/** Property path expressions, their meaning as relations on node ids (section
    18.4 of SPARQL 1.1 Query Language, read over sets), and the rewriting that
    pushes `^` to the leaves. */
module Paths {
  import opened Datasets
  import opened Relations

  datatype Path =
    | Pred(name: Name)
    | Reverse(inner: Path)
    | Sequence(left: Path, right: Path)
    | Alternative(left: Path, right: Path)
    | ZeroOrMore(inner: Path)
    | OneOrMore(inner: Path)
    | ZeroOrOne(inner: Path)
    | NegatedSet(names: seq<Name>)

  ghost function Edges(ds: Dataset, p: Id): Relation {
    iset e: (Id, Id) | HasTriple(ds, e.0, p, e.1)
  }

  /** Edges under a predicate name; a name without an id has none. */
  ghost function NamedEdges(ds: Dataset, n: Name): Relation {
    if n in ds.ids then Edges(ds, ds.ids[n]) else iset{}
  }

  /** The id is the one a name of the list is interned under. */
  ghost predicate IsNamed(ds: Dataset, names: seq<Name>, p: Id) {
    exists n :: n in names && n in ds.ids && ds.ids[n] == p
  }

  /** Edges under any predicate outside the negated set. */
  ghost function NegatedEdges(ds: Dataset, names: seq<Name>): Relation {
    iset e: (Id, Id) | exists p :: HasTriple(ds, e.0, p, e.1) && !IsNamed(ds, names, p)
  }

  /** A negated set relates the ends of the triples whose predicate is none of the names. */
  lemma NegatedSetMeans(ds: Dataset, names: seq<Name>, x: Id, y: Id)
    ensures (x, y) in Meaning(ds, NegatedSet(names))
            <==> exists p :: HasTriple(ds, x, p, y) && forall n :: n in names && n in ds.ids ==> ds.ids[n] != p
    ensures (y, x) in Meaning(ds, Reverse(NegatedSet(names)))
            <==> exists p :: HasTriple(ds, x, p, y) && forall n :: n in names && n in ds.ids ==> ds.ids[n] != p
  {
    if (x, y) in Meaning(ds, NegatedSet(names)) {
      var p :| HasTriple(ds, x, p, y) && !IsNamed(ds, names, p);
      assert forall n :: n in names && n in ds.ids ==> ds.ids[n] != p;
    }
    if p :| HasTriple(ds, x, p, y) && forall n :: n in names && n in ds.ids ==> ds.ids[n] != p {
      assert !IsNamed(ds, names, p);
    }
  }

  ghost function Meaning(ds: Dataset, path: Path): Relation {
    match path
    case Pred(n) => NamedEdges(ds, n)
    case Reverse(a) => Converse(Meaning(ds, a))
    case Sequence(a, b) => Compose(Meaning(ds, a), Meaning(ds, b))
    case Alternative(a, b) => Meaning(ds, a) + Meaning(ds, b)
    case ZeroOrMore(a) => Star(Meaning(ds, a))
    case OneOrMore(a) => Plus(Meaning(ds, a))
    case ZeroOrOne(a) => Identity() + Meaning(ds, a)
    case NegatedSet(names) => NegatedEdges(ds, names)
  }

  // ---- Pushing `^` to the leaves ----

  /** Termination measure: every rewriting step moves to a proper part of this. */
  function Core(path: Path): Path { if path.Reverse? then path.inner else path }

  predicate IsLeaf(path: Path) { path.Pred? || path.NegatedSet? }

  /** `^` stands only in front of a single predicate or a negated set. */
  predicate Normalized(path: Path) {
    match path
    case Pred(_) => true
    case NegatedSet(_) => true
    case Reverse(a) => IsLeaf(a)
    case ZeroOrMore(a) => Normalized(a)
    case OneOrMore(a) => Normalized(a)
    case ZeroOrOne(a) => Normalized(a)
    case Sequence(a, b) => Normalized(a) && Normalized(b)
    case Alternative(a, b) => Normalized(a) && Normalized(b)
  }

  function NormalizeReverse(path: Path): (r: Path)
    ensures Normalized(r)
    decreases Core(path)
  {
    match path
    case Reverse(inner) => (
      match inner
      case Pred(_) => path
      case NegatedSet(_) => path
      case Reverse(a) => NormalizeReverse(a)
      case Sequence(a, b) => Sequence(NormalizeReverse(Reverse(b)), NormalizeReverse(Reverse(a)))
      case Alternative(a, b) => Alternative(NormalizeReverse(Reverse(a)), NormalizeReverse(Reverse(b)))
      case ZeroOrMore(a) => ZeroOrMore(NormalizeReverse(Reverse(a)))
      case OneOrMore(a) => OneOrMore(NormalizeReverse(Reverse(a)))
      case ZeroOrOne(a) => ZeroOrOne(NormalizeReverse(Reverse(a))))
    case Sequence(a, b) => Sequence(NormalizeReverse(a), NormalizeReverse(b))
    case Alternative(a, b) => Alternative(NormalizeReverse(a), NormalizeReverse(b))
    case ZeroOrMore(a) => ZeroOrMore(NormalizeReverse(a))
    case OneOrMore(a) => OneOrMore(NormalizeReverse(a))
    case ZeroOrOne(a) => ZeroOrOne(NormalizeReverse(a))
    case Pred(_) => path
    case NegatedSet(_) => path
  }

  /** A normalized path is a fixed point, so normalizing twice changes nothing. */
  lemma {:induction false} NormalizeIdempotent(path: Path)
    requires Normalized(path)
    ensures NormalizeReverse(path) == path
    decreases path
  {
    match path
    case Sequence(a, b) => NormalizeIdempotent(a); NormalizeIdempotent(b);
    case Alternative(a, b) => NormalizeIdempotent(a); NormalizeIdempotent(b);
    case ZeroOrMore(a) => NormalizeIdempotent(a);
    case OneOrMore(a) => NormalizeIdempotent(a);
    case ZeroOrOne(a) => NormalizeIdempotent(a);
    case _ =>
  }

  /** Normalizing keeps the relation a path denotes, on every dataset. */
  lemma {:induction false} NormalizePreservesMeaning(ds: Dataset, path: Path)
    ensures Meaning(ds, NormalizeReverse(path)) == Meaning(ds, path)
    decreases Core(path)
  {
    match path
    case Pred(_) =>
    case NegatedSet(_) =>
    case Sequence(a, b) => NormalizePreservesMeaning(ds, a); NormalizePreservesMeaning(ds, b);
    case Alternative(a, b) => NormalizePreservesMeaning(ds, a); NormalizePreservesMeaning(ds, b);
    case ZeroOrOne(a) => NormalizePreservesMeaning(ds, a);
    case ZeroOrMore(a) => NormalizePreservesMeaning(ds, a);
    case OneOrMore(a) => NormalizePreservesMeaning(ds, a);
    case Reverse(inner) =>
      match inner
      case Pred(_) =>
      case NegatedSet(_) =>
      case Reverse(a) => NormalizePreservesMeaning(ds, a);
      case Sequence(a, b) =>
        NormalizePreservesMeaning(ds, Reverse(a));
        NormalizePreservesMeaning(ds, Reverse(b));
        ConverseCompose(Meaning(ds, a), Meaning(ds, b));
      case Alternative(a, b) =>
        NormalizePreservesMeaning(ds, Reverse(a));
        NormalizePreservesMeaning(ds, Reverse(b));
      case ZeroOrOne(a) => NormalizePreservesMeaning(ds, Reverse(a));
      case ZeroOrMore(a) => NormalizePreservesMeaning(ds, Reverse(a)); ConverseClosures(Meaning(ds, a));
      case OneOrMore(a) => NormalizePreservesMeaning(ds, Reverse(a)); ConverseClosures(Meaning(ds, a));
  }

  // ---- Ids outside the dataset ----

  /** Relates an id outside `nodes` only to itself. */
  ghost predicate StaysAmong(r: Relation, nodes: set<Id>) {
    forall p :: p in r ==> p.0 == p.1 || (p.0 in nodes && p.1 in nodes)
  }

  lemma {:induction false} WalkStaysAmong(r: Relation, nodes: set<Id>, n: nat, x: Id, y: Id)
    requires StaysAmong(r, nodes) && Walk(r, n, x, y)
    ensures x == y || (x in nodes && y in nodes)
    decreases n
  {
    if n > 0 {
      var z :| (x, z) in r && Walk(r, n - 1, z, y);
      WalkStaysAmong(r, nodes, n - 1, z, y);
    }
  }

  /** A path relates an id that occurs nowhere in the data only to itself. */
  lemma {:induction false} StrangersOnlyReachThemselves(ds: Dataset, path: Path)
    ensures StaysAmong(Meaning(ds, path), Nodes(ds))
    decreases path, 0
  {
    forall x, p, y | HasTriple(ds, x, p, y) ensures x in Nodes(ds) && y in Nodes(ds) {
      TripleEndsAreNodes(ds, x, p, y);
    }
    match path
    case Pred(_) =>
    case NegatedSet(_) =>
    case Reverse(a) => StrangersOnlyReachThemselves(ds, a);
    case Sequence(a, b) => StrangersOnlyReachThemselves(ds, a); StrangersOnlyReachThemselves(ds, b);
    case Alternative(a, b) => StrangersOnlyReachThemselves(ds, a); StrangersOnlyReachThemselves(ds, b);
    case ZeroOrOne(a) => StrangersOnlyReachThemselves(ds, a);
    case ZeroOrMore(a) => ClosureStaysAmong(ds, a);
    case OneOrMore(a) => ClosureStaysAmong(ds, a);
  }

  lemma {:induction false} ClosureStaysAmong(ds: Dataset, a: Path)
    ensures StaysAmong(Star(Meaning(ds, a)), Nodes(ds))
    ensures StaysAmong(Plus(Meaning(ds, a)), Nodes(ds))
    decreases a
  {
    StrangersOnlyReachThemselves(ds, a);
    var r := Meaning(ds, a);
    forall x: Id, y: Id, n: nat | Walk(r, n, x, y) ensures x == y || (x in Nodes(ds) && y in Nodes(ds)) {
      WalkStaysAmong(r, Nodes(ds), n, x, y);
    }
  }
}
