/** The regular path query evaluator: normalize, compile, search. */
module Rpq {
  import opened Options
  import opened Sequences
  import opened Datasets
  import opened Paths
  import opened Nfas
  import opened ProductSearch

  /** Shapes left to the dedicated single-predicate searches: `p`, `p+` and `p*`. */
  predicate IsSimplePredicatePath(path: Path) {
    || path.Pred?
    || (path.OneOrMore? && path.inner.Pred?)
    || (path.ZeroOrMore? && path.inner.Pred?)
  }

  /** The one relation every endpoint mode restricts. With neither end bound, roots
      are the nodes of the dataset. */
  ghost predicate Answer(ds: Dataset, path: Path, source: Option<Id>, target: Option<Id>, x: Id, y: Id) {
    && (x, y) in Meaning(ds, path)
    && Fits(source, x) && Fits(target, y)
    && (source.None? && target.None? ==> Mentioned(ds, x))
  }

  ghost predicate Mentioned(ds: Dataset, x: Id) { exists t :: t in ds.triples && (t.s == x || t.o == x) }

  lemma MentionedAreNodes(ds: Dataset)
    ensures forall x :: Mentioned(ds, x) <==> x in Nodes(ds)
  {
    forall x ensures Mentioned(ds, x) <==> x in Nodes(ds) {
      if t :| t in ds.triples && (t.s == x || t.o == x) { assert FieldOf(t, Subject) == t.s && FieldOf(t, Object) == t.o; }
    }
  }

  ghost predicate Lists(pairs: seq<(Id, Id)>, ds: Dataset, path: Path, source: Option<Id>, target: Option<Id>) {
    Distinct(pairs) && forall x: Id, y: Id :: (x, y) in pairs <==> Answer(ds, path, source, target, x, y)
  }

  /** Runs `path` forward from `x`. */
  method ReachedFrom(ds: Dataset, path: Path, x: Id) returns (reached: set<Id>)
    ensures forall y :: y in reached <==> (x, y) in Meaning(ds, path)
  {
    var normalized := NormalizeReverse(path);
    NormalizePreservesMeaning(ds, path);
    var nfa := new Nfa();
    var start, accept := nfa.Compile(normalized);
    reached := ProductBfs(ds, nfa.edges, start, accept, x);
  }

  method EvalRpq(ds: Dataset, path: Path, source: Option<Id>, target: Option<Id>) returns (r: Option<seq<(Id, Id)>>)
    ensures r.None? <==> exists n :: path == Pred(n) || path == OneOrMore(Pred(n)) || path == ZeroOrMore(Pred(n))
    ensures r.Some? ==> Lists(r.value, ds, path, source, target)
  {
    if IsSimplePredicatePath(path) { return None; }
    forall n: Name ensures path != Pred(n) && path != OneOrMore(Pred(n)) && path != ZeroOrMore(Pred(n)) {}
    var pairs := [];
    match (source, target) {
      case (Some(s), _) =>
        var rest := ReachedFrom(ds, path, s);
        ghost var reached := rest;
        while rest != {}
          invariant rest <= reached
          invariant Distinct(pairs)
          invariant forall x: Id, y: Id :: (x, y) in pairs <==> x == s && y in reached && y !in rest && Fits(target, y)
          decreases rest
        {
          var y :| y in rest;
          rest := rest - {y};
          if Fits(target, y) { pairs := pairs + [(s, y)]; }
        }
      case (None, Some(o)) =>
        var rest := ReachedFrom(ds, Reverse(path), o);
        ghost var reached := rest;
        while rest != {}
          invariant rest <= reached
          invariant Distinct(pairs)
          invariant forall x: Id, y: Id :: (x, y) in pairs <==> y == o && x in reached && x !in rest
          decreases rest
        {
          var x :| x in rest;
          rest := rest - {x};
          pairs := pairs + [(x, o)];
        }
      case (None, None) =>
        pairs := EvalUnbound(ds, path);
    }
    r := Some(pairs);
  }

  /** One search per node of the dataset over a single compiled automaton. */
  method EvalUnbound(ds: Dataset, path: Path) returns (pairs: seq<(Id, Id)>)
    ensures Lists(pairs, ds, path, None, None)
  {
    var normalized := NormalizeReverse(path);
    NormalizePreservesMeaning(ds, path);
    var nfa := new Nfa();
    var start, accept := nfa.Compile(normalized);
    var table := nfa.edges;
    MentionedAreNodes(ds);
    pairs := [];
    var seen: set<(Id, Id)> := {};
    var roots := Nodes(ds);
    while roots != {}
      invariant roots <= Nodes(ds)
      invariant Distinct(pairs) && SameElements(pairs, seen)
      invariant forall x: Id, y: Id :: (x, y) in pairs <==> x in Nodes(ds) && x !in roots && (x, y) in Meaning(ds, path)
      decreases roots
    {
      var s :| s in roots;
      roots := roots - {s};
      var reached := ProductBfs(ds, table, start, accept, s);
      pairs, seen := ListPairs(s, reached, pairs, seen);
    }
  }

  /** Lists `(s, y)` for every reached node, once. */
  method ListPairs(s: Id, reached: set<Id>, pairs: seq<(Id, Id)>, seen: set<(Id, Id)>)
      returns (pairs': seq<(Id, Id)>, seen': set<(Id, Id)>)
    requires Distinct(pairs) && SameElements(pairs, seen)
    ensures Distinct(pairs') && SameElements(pairs', seen')
    ensures forall x: Id, y: Id :: (x, y) in pairs' <==> (x, y) in pairs || (x == s && y in reached)
  {
    pairs', seen' := pairs, seen;
    var rest := reached;
    while rest != {}
      invariant rest <= reached
      invariant Distinct(pairs') && SameElements(pairs', seen')
      invariant forall x: Id, y: Id :: (x, y) in pairs' <==> (x, y) in pairs || (x == s && y in reached && y !in rest)
      decreases rest
    {
      var y :| y in rest;
      rest := rest - {y};
      if (s, y) !in seen' {
        seen', pairs' := seen' + {(s, y)}, pairs' + [(s, y)];
      }
    }
  }

  /** Leaving both ends unbound loses nothing but identities at ids the data never mentions. */
  lemma UnboundMissesOnlyStrangers(ds: Dataset, path: Path, x: Id, y: Id)
    requires (x, y) in Meaning(ds, path)
    ensures Answer(ds, path, None, None, x, y) || (x == y && !Mentioned(ds, x))
  {
    MentionedAreNodes(ds);
    StrangersOnlyReachThemselves(ds, path);
  }
}
