/** Duplicate-free sequences and listing a finite set in order. */
module Sequences {

  ghost predicate Increasing(keys: seq<nat>) {
    forall i, j :: 0 <= i < j < |keys| ==> keys[i] < keys[j]
  }

  ghost predicate Distinct<T>(xs: seq<T>) {
    forall i, j :: 0 <= i < j < |xs| ==> xs[i] != xs[j]
  }

  ghost predicate SameElements<T(!new)>(xs: seq<T>, s: set<T>) {
    forall x :: x in xs <==> x in s
  }

  method InOrder(ids: set<nat>) returns (keys: seq<nat>)
    ensures Increasing(keys) && SameElements(keys, ids)
  {
    keys := [];
    var rest := ids;
    while rest != {}
      invariant rest <= ids
      invariant forall k :: k in keys <==> k in ids && k !in rest
      invariant Increasing(keys)
      invariant forall a, b :: a in keys && b in rest ==> a < b
      decreases rest
    {
      var least := Least(rest);
      assert forall i :: 0 <= i < |keys| ==> keys[i] in keys;
      keys, rest := keys + [least], rest - {least};
    }
  }

  method Least(ids: set<nat>) returns (least: nat)
    requires ids != {}
    ensures least in ids && forall k :: k in ids ==> least <= k
  {
    least :| least in ids;
    var rest := ids - {least};
    while rest != {}
      invariant rest <= ids && least in ids
      invariant forall k :: k in ids ==> k in rest || least <= k
      decreases rest
    {
      var k :| k in rest;
      rest := rest - {k};
      if k < least { least := k; }
    }
  }

  // ---- Slices ----

  lemma SliceOfSlice<T>(s: seq<T>, lo: nat, hi: nat, from: nat, to: nat)
    requires lo <= hi <= |s| && from <= to <= hi - lo
    ensures s[lo..hi][from..to] == s[lo + from..lo + to]
  {
    forall i | 0 <= i < to - from ensures s[lo..hi][from..to][i] == s[lo + from..lo + to][i] {
      assert s[lo..hi][from..to][i] == s[lo..hi][from + i] == s[lo + (from + i)];
    }
  }

  /** A slice and its parts before, at and after position `k` of it. */
  lemma CutAt<T>(s: seq<T>, lo: nat, hi: nat, k: nat)
    requires lo + k < hi <= |s|
    ensures s[lo..hi][..k] == s[lo..lo + k] && s[lo..hi][k] == s[lo + k] && s[lo..hi][k + 1..] == s[lo + k + 1..hi]
  {
    SliceOfSlice(s, lo, hi, 0, k);
    SliceOfSlice(s, lo, hi, k + 1, hi - lo);
    assert s[lo..hi][k + 1..] == s[lo..hi][k + 1..hi - lo];
  }
}
