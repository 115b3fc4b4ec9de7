/** The RDF dataset as path evaluation sees it: a finite set of id triples, the
    ids its predicate names are interned under, and one scan primitive. */
module Datasets {
  import opened Options
  import opened Sequences

  /** A term id; only equality and order of ids matter here. */
  type Id = nat
  type Name = string

  datatype Triple = Triple(s: Id, p: Id, o: Id)

  /** `ids` is partial: a predicate that was never interned has no id. */
  datatype Dataset = Dataset(triples: set<Triple>, ids: map<Name, Id>)

  /** The triple position a scan enumerates. */
  datatype Field = Subject | Predicate | Object

  function FieldOf(t: Triple, f: Field): Id {
    match f
    case Subject => t.s
    case Predicate => t.p
    case Object => t.o
  }

  predicate Fits(bound: Option<Id>, id: Id) {
    bound.None? || bound.value == id
  }

  /** The distinct keys a scan with the given bound positions must visit. */
  function Keys(ds: Dataset, s: Option<Id>, p: Option<Id>, o: Option<Id>, f: Field): set<Id> {
    set t | t in ds.triples && Fits(s, t.s) && Fits(p, t.p) && Fits(o, t.o) :: FieldOf(t, f)
  }

  /** Trie-iterator contract: distinct keys in strictly increasing order, none missed. */
  method JoinScan(ds: Dataset, s: Option<Id>, p: Option<Id>, o: Option<Id>, f: Field) returns (keys: seq<Id>)
    ensures Increasing(keys)
    ensures SameElements(keys, Keys(ds, s, p, o, f))
  {
    keys := InOrder(Keys(ds, s, p, o, f));
  }

  /** Subjects and objects of the dataset. */
  function Nodes(ds: Dataset): set<Id> {
    Keys(ds, None, None, None, Subject) + Keys(ds, None, None, None, Object)
  }

  ghost predicate HasTriple(ds: Dataset, s: Id, p: Id, o: Id) {
    Triple(s, p, o) in ds.triples
  }

  lemma ScanMeaning(ds: Dataset)
    ensures forall x, p, y :: y in Keys(ds, Some(x), Some(p), None, Object) <==> HasTriple(ds, x, p, y)
    ensures forall x, p, y :: x in Keys(ds, None, Some(p), Some(y), Subject) <==> HasTriple(ds, x, p, y)
    ensures forall x, p :: p in Keys(ds, Some(x), None, None, Predicate) <==> exists y :: HasTriple(ds, x, p, y)
    ensures forall p, y :: p in Keys(ds, None, None, Some(y), Predicate) <==> exists x :: HasTriple(ds, x, p, y)
  {
    forall x, p, y ensures y in Keys(ds, Some(x), Some(p), None, Object) <==> HasTriple(ds, x, p, y) {
      if HasTriple(ds, x, p, y) { assert FieldOf(Triple(x, p, y), Object) == y; }
    }
    forall x, p, y ensures x in Keys(ds, None, Some(p), Some(y), Subject) <==> HasTriple(ds, x, p, y) {
      if HasTriple(ds, x, p, y) { assert FieldOf(Triple(x, p, y), Subject) == x; }
    }
    forall x, p ensures p in Keys(ds, Some(x), None, None, Predicate) <==> exists y :: HasTriple(ds, x, p, y) {
      if p in Keys(ds, Some(x), None, None, Predicate) {
        var t :| t in ds.triples && t.s == x && t.p == p;
        assert HasTriple(ds, x, p, t.o);
      }
      if y :| HasTriple(ds, x, p, y) { assert FieldOf(Triple(x, p, y), Predicate) == p; }
    }
    forall p, y ensures p in Keys(ds, None, None, Some(y), Predicate) <==> exists x :: HasTriple(ds, x, p, y) {
      if p in Keys(ds, None, None, Some(y), Predicate) {
        var t :| t in ds.triples && t.o == y && t.p == p;
        assert HasTriple(ds, t.s, p, y);
      }
      if x :| HasTriple(ds, x, p, y) { assert FieldOf(Triple(x, p, y), Predicate) == p; }
    }
  }

  lemma TripleEndsAreNodes(ds: Dataset, x: Id, p: Id, y: Id)
    requires HasTriple(ds, x, p, y)
    ensures x in Nodes(ds) && y in Nodes(ds)
  {
    var t := Triple(x, p, y);
    assert FieldOf(t, Subject) == x && FieldOf(t, Object) == y;
  }
}
