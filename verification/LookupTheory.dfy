/** When looking a term up in the compacted tier finds it. Entries are sorted by key
    only, and a lookup starts at the last block whose first key is not beyond its own. */
module LookupTheory {
  import opened Options
  import opened Bytes
  import opened FrontCoding
  import opened CompactedTier

  ghost predicate DistinctContents(es: seq<Entry>) {
    forall i, j :: 0 <= i < j < |es| ==> es[i].content != es[j].content
  }

  /** No run of equal keys goes on from one block into the next. */
  ghost predicate NoCrossingRun(es: seq<Entry>) {
    forall b: nat :: 0 < b < NumBlocks(|es|) ==> es[Base(b) - 1].content.key != FirstKey(es, b)
  }

  lemma {:induction false} FirstMatchMeaning(es: seq<Entry>, r: nat, c: Content)
    ensures FirstMatch(es, r, c).None? <==> forall k :: r <= k < |es| ==> es[k].content != c
    ensures FirstMatch(es, r, c).Some? ==>
              exists k: nat :: r <= k < |es| && es[k] == Entry(c, FirstMatch(es, r, c).value)
    decreases |es| - r
  {
    if r < |es| {
      if es[r].content == c {
        assert es[r] == Entry(c, es[r].id);
      } else {
        FirstMatchMeaning(es, r + 1, c);
      }
    }
  }

  /** A lookup never answers with an id of another term. */
  lemma LookupSound(es: seq<Entry>, c: Content)
    requires Lookup(es, c).Some?
    ensures exists k: nat :: k < |es| && es[k] == Entry(c, Lookup(es, c).value)
  {
    FirstMatchMeaning(es, Base(JumpBlock(es, c.key)), c);
  }

  /** It finds exactly the matches in the block it jumps to or after it. */
  lemma LookupMissesExactlyEarlierBlocks(es: seq<Entry>, c: Content)
    ensures Lookup(es, c).None? <==> forall k :: Base(JumpBlock(es, c.key)) <= k < |es| ==> es[k].content != c
  {
    FirstMatchMeaning(es, Base(JumpBlock(es, c.key)), c);
  }

  /** A match lies before the jump block only inside a run of equal keys that crosses
      into it. */
  lemma MissedMatchMeansCrossing(es: seq<Entry>, c: Content, k: nat)
    requires Sorted(es) && k < Base(JumpBlock(es, c.key)) && k < |es| && es[k].content == c
    ensures var b := JumpBlock(es, c.key);
            0 < b < NumBlocks(|es|) && es[Base(b) - 1].content.key == FirstKey(es, b) == c.key
  {
    var b := JumpBlock(es, c.key);
    JumpBlockExists(es, c.key);
    PartitionPointBound(es, c.key, NumBlocks(|es|));
    var last := Base(b) - 1;
    assert KeyLe(c.key, es[last].content.key) by { KeyOrder(c.key, c.key, c.key); }
    assert KeyLe(es[last].content.key, FirstKey(es, b));
    KeyOrder(c.key, es[last].content.key, FirstKey(es, b));
    KeyOrder(FirstKey(es, b), c.key, es[last].content.key);
    KeyOrder(c.key, FirstKey(es, b), c.key);
  }

  /** The entry just before a boundary its key run crosses is never found. */
  lemma CrossingHidesEntry(es: seq<Entry>, b: nat)
    requires Sorted(es) && DistinctContents(es) && 0 < b < NumBlocks(|es|)
    requires es[Base(b) - 1].content.key == FirstKey(es, b)
    ensures Lookup(es, es[Base(b) - 1].content).None?
  {
    var c := es[Base(b) - 1].content;
    KeyOrder(c.key, c.key, c.key);
    PartitionPointBound(es, c.key, NumBlocks(|es|));
    assert JumpBlock(es, c.key) >= b;
    LookupMissesExactlyEarlierBlocks(es, c);
  }

  /** Lookup finds every stored term if and only if no equal-key run crosses a block boundary. */
  lemma LookupCompleteIffNoCrossing(es: seq<Entry>)
    requires Sorted(es) && DistinctContents(es)
    ensures NoCrossingRun(es) <==> forall k: nat :: k < |es| ==> Lookup(es, es[k].content) == Some(es[k].id)
  {
    if NoCrossingRun(es) {
      forall k: nat | k < |es| ensures Lookup(es, es[k].content) == Some(es[k].id) { LookupFinds(es, k); }
    } else {
      var b: nat :| 0 < b < NumBlocks(|es|) && es[Base(b) - 1].content.key == FirstKey(es, b);
      CrossingHidesEntry(es, b);
    }
  }

  lemma LookupFinds(es: seq<Entry>, k: nat)
    requires Sorted(es) && NoCrossingRun(es) && k < |es|
    ensures Lookup(es, es[k].content).Some?
    ensures DistinctContents(es) ==> Lookup(es, es[k].content) == Some(es[k].id)
  {
    var c := es[k].content;
    if k < Base(JumpBlock(es, c.key)) { MissedMatchMeansCrossing(es, c, k); }
    LookupMissesExactlyEarlierBlocks(es, c);
    LookupSound(es, c);
  }

  /** Nine literals with one text and nine languages: the first eight fill a block, the
      ninth opens the next with the same key, and the eight are out of reach. */
  lemma EqualTextsCrossABlock(text: Text, es: seq<Entry>)
    requires |es| == 9 && DistinctContents(es)
    requires forall i :: 0 <= i < 9 ==> es[i].content.key == Key(3, text)
    ensures Sorted(es) && !NoCrossingRun(es)
    ensures forall i: nat :: i < 8 ==> Lookup(es, es[i].content).None?
  {
    forall i, j | 0 <= i < j < |es| ensures KeyLe(es[i].content.key, es[j].content.key) {
      KeyOrder(es[i].content.key, es[j].content.key, es[j].content.key);
    }
    assert es[Base(1) - 1].content.key == FirstKey(es, 1);
    forall i: nat | i < 8 ensures Lookup(es, es[i].content).None? {
      PartitionPointBound(es, es[i].content.key, NumBlocks(|es|));
      KeyOrder(FirstKey(es, 1), es[i].content.key, es[i].content.key);
      LookupMissesExactlyEarlierBlocks(es, es[i].content);
    }
  }
}
