/** The two-tier term dictionary: a mutable delta over an immutable compacted tier.
    Its meaning is an append-only sequence of terms indexed by id. */
module Dictionaries {
  import opened Options
  import opened FrontCoding
  import opened CompactedTier
  import opened LookupTheory
  import opened Terms
  import opened Caches
  import opened BlockCache
  import opened GraphNames

  type Components = (nat, nat, nat)

  const MAX_TERM_ID: nat := 0xFF_FFFF_FFFF

  const DECODE_CACHE_CAPACITY: nat := 100_000

  // ---- How the parts represent the term sequence ----

  /** A resident slot holds its term, and the reverse map leads back. */
  ghost predicate SlotAt(terms: seq<Term>, slots: seq<Option<Term>>, toId: map<Term, nat>, i: nat) {
    && i < |slots| && i < |terms|
    && (slots[i].Some? ==> slots[i].value == terms[i] && terms[i] in toId && toId[terms[i]] == i)
  }

  ghost predicate Filed(slots: seq<Option<Term>>, toId: map<Term, nat>, t: Term) {
    t in toId && toId[t] < |slots| && slots[toId[t]] == Some(t)
  }

  /** Resident slots and the reverse map hold the same terms under the same ids. */
  ghost predicate DeltaOf(terms: seq<Term>, slots: seq<Option<Term>>, toId: map<Term, nat>) {
    && |slots| == |terms|
    && (forall i: nat :: i < |slots| ==> SlotAt(terms, slots, toId, i))
    && (forall t :: t in toId ==> Filed(slots, toId, t))
  }

  ghost predicate QuotedAt(terms: seq<Term>, slots: seq<Option<Term>>, parts: map<nat, Components>, partsId: map<Components, nat>, i: nat) {
    && i < |terms| && i < |slots| && (i in parts <==> terms[i].Triple?)
    && (i in parts ==>
          var (s, p, o) := parts[i];
          && s < i && p < i && o < i && slots[i].Some?
          && terms[i] == Term.Triple(terms[s], terms[p], terms[o])
          && parts[i] in partsId && partsId[parts[i]] == i)
  }

  /** Quoted triples stay resident and name earlier ids as their components. */
  ghost predicate QuotedOf(terms: seq<Term>, slots: seq<Option<Term>>, parts: map<nat, Components>, partsId: map<Components, nat>) {
    && |slots| == |terms|
    && (forall i :: i in parts ==> i < |terms|)
    && (forall i: nat :: i < |terms| ==> QuotedAt(terms, slots, parts, partsId, i))
    && (forall c :: c in partsId ==> partsId[c] in parts && parts[partsId[c]] == c)
  }

  ghost predicate HasEntry(es: seq<Entry>, id: nat) {
    exists r :: 0 <= r < |es| && es[r].id == id
  }

  /** The entry of rank `r` encodes the regular term its id stands for. */
  ghost predicate EntryAt(terms: seq<Term>, es: seq<Entry>, r: nat) {
    r < |es| && es[r].id < |terms| && !terms[es[r].id].Triple? && es[r].content == ContentOf(terms[es[r].id])
  }

  ghost predicate FreedAt(slots: seq<Option<Term>>, es: seq<Entry>, i: nat) {
    i < |slots| && (slots[i].None? <==> HasEntry(es, i))
  }

  /** Sorted entries of regular terms, one for each id whose slot was freed. */
  ghost predicate Covers(terms: seq<Term>, slots: seq<Option<Term>>, es: seq<Entry>, highWater: nat) {
    && highWater <= |terms| && DistinctIds(es, highWater) && Sorted(es)
    && (forall r: nat :: r < |es| ==> EntryAt(terms, es, r))
    && (forall i: nat :: i < |slots| ==> FreedAt(slots, es, i))
  }

  ghost predicate AllWellFormed(terms: seq<Term>) {
    forall i :: 0 <= i < |terms| ==> WellFormed(terms[i])
  }

  ghost predicate Remembered(terms: seq<Term>, kv: (nat, Term)) {
    kv.0 < |terms| && kv.1 == terms[kv.0]
  }

  ghost predicate CacheOf(terms: seq<Term>, cache: Lru<nat, Term>) {
    WellKept(cache) && forall kv :: kv in cache.items ==> Remembered(terms, kv)
  }

  ghost predicate Unique(terms: seq<Term>) {
    forall i, j :: 0 <= i < j < |terms| ==> terms[i] != terms[j]
  }

  // ---- What one more term does ----

  lemma AppendKeepsDelta(terms: seq<Term>, slots: seq<Option<Term>>, toId: map<Term, nat>, t: Term)
    requires DeltaOf(terms, slots, toId) && t !in toId
    ensures DeltaOf(terms + [t], slots + [Some(t)], toId[t := |terms|])
  {
    var terms', slots', toId' := terms + [t], slots + [Some(t)], toId[t := |terms|];
    forall i: nat | i < |slots'| ensures SlotAt(terms', slots', toId', i) {
      if i < |slots| { assert SlotAt(terms, slots, toId, i); }
    }
    forall u | u in toId' ensures Filed(slots', toId', u) {
      if u != t { assert Filed(slots, toId, u); }
    }
  }

  lemma AppendKeepsCover(terms: seq<Term>, slots: seq<Option<Term>>, es: seq<Entry>, highWater: nat, cache: Lru<nat, Term>, t: Term)
    requires Covers(terms, slots, es, highWater) && CacheOf(terms, cache) && |slots| == |terms|
    ensures Covers(terms + [t], slots + [Some(t)], es, highWater) && CacheOf(terms + [t], cache)
  {
    forall r: nat | r < |es| ensures EntryAt(terms + [t], es, r) { assert EntryAt(terms, es, r); }
    forall i: nat | i < |slots| + 1 ensures FreedAt(slots + [Some(t)], es, i) {
      if i < |slots| { assert FreedAt(slots, es, i); }
    }
    forall kv | kv in cache.items ensures Remembered(terms + [t], kv) { assert Remembered(terms, kv); }
  }

  lemma AppendRegularKeepsQuoted(terms: seq<Term>, slots: seq<Option<Term>>, parts: map<nat, Components>,
                                 partsId: map<Components, nat>, t: Term)
    requires QuotedOf(terms, slots, parts, partsId) && !t.Triple?
    ensures QuotedOf(terms + [t], slots + [Some(t)], parts, partsId)
  {
    forall i: nat | i < |terms| + 1 ensures QuotedAt(terms + [t], slots + [Some(t)], parts, partsId, i) {
      if i < |terms| { assert QuotedAt(terms, slots, parts, partsId, i); }
    }
  }

  lemma AppendQuotedKeepsQuoted(terms: seq<Term>, slots: seq<Option<Term>>, toId: map<Term, nat>, parts: map<nat, Components>,
                                partsId: map<Components, nat>, t: Term, c: Components)
    requires DeltaOf(terms, slots, toId) && QuotedOf(terms, slots, parts, partsId) && t.Triple? && t !in toId
    requires c.0 < |terms| && c.1 < |terms| && c.2 < |terms|
    requires t == Term.Triple(terms[c.0], terms[c.1], terms[c.2])
    ensures QuotedOf(terms + [t], slots + [Some(t)], parts[|terms| := c], partsId[c := |terms|])
  {
    var terms', slots' := terms + [t], slots + [Some(t)];
    var parts', partsId' := parts[|terms| := c], partsId[c := |terms|];
    forall i | i in parts ensures parts[i] != c {
      assert QuotedAt(terms, slots, parts, partsId, i);
      assert SlotAt(terms, slots, toId, i);
    }
    forall i: nat | i < |terms'| ensures QuotedAt(terms', slots', parts', partsId', i) {
      if i < |terms| { assert QuotedAt(terms, slots, parts, partsId, i); }
    }
  }

  /** Quoted triples stay resident, so one that is not resident is unknown. */
  lemma UnknownTripleIsNew(terms: seq<Term>, d: Tables, t: Term)
    requires DeltaOf(terms, d.slots, d.toId) && QuotedOf(terms, d.slots, d.parts, d.partsId) && t.Triple? && t !in d.toId
    ensures t !in terms
  {
    forall i: nat | i < |terms| ensures terms[i] != t {
      assert SlotAt(terms, d.slots, d.toId, i) && QuotedAt(terms, d.slots, d.parts, d.partsId, i);
    }
  }

  /** With lookup exact, a term is in the dictionary only where lookup would find it. */
  lemma UnknownTermIsNew(terms: seq<Term>, slots: seq<Option<Term>>, toId: map<Term, nat>, parts: map<nat, Components>,
                         partsId: map<Components, nat>, es: seq<Entry>, highWater: nat, t: Term)
    requires DeltaOf(terms, slots, toId) && QuotedOf(terms, slots, parts, partsId) && Covers(terms, slots, es, highWater)
    requires NoCrossingRun(es) && t !in toId && (t.Triple? || Lookup(es, ContentOf(t)).None?)
    ensures t !in terms
  {
    forall i: nat | i < |terms| ensures terms[i] != t {
      assert SlotAt(terms, slots, toId, i) && FreedAt(slots, es, i) && QuotedAt(terms, slots, parts, partsId, i);
      if slots[i].None? {
        var r :| 0 <= r < |es| && es[r].id == i;
        assert EntryAt(terms, es, r);
        LookupFinds(es, r);
      }
    }
  }

  datatype Tables = Tables(slots: seq<Option<Term>>, toId: map<Term, nat>, parts: map<nat, Components>, partsId: map<Components, nat>)

  /** The tables, the tier's entries and the decode cache together represent `terms`. */
  ghost predicate Consistent(terms: seq<Term>, d: Tables, es: seq<Entry>, highWater: nat, cache: Lru<nat, Term>) {
    && |terms| <= MAX_TERM_ID + 1 && AllWellFormed(terms) && DeltaOf(terms, d.slots, d.toId) && QuotedOf(terms, d.slots, d.parts, d.partsId)
    && Covers(terms, d.slots, es, highWater) && CacheOf(terms, cache)
  }

  /** Interning keeps terms unique as long as lookups are exact. */
  ghost predicate StaysUnique(es: seq<Entry>, before: seq<Term>, after: seq<Term>) {
    NoCrossingRun(es) && Unique(before) ==> Unique(after)
  }

  lemma AppendRegular(terms: seq<Term>, d: Tables, es: seq<Entry>, highWater: nat, cache: Lru<nat, Term>, t: Term)
    requires Consistent(terms, d, es, highWater, cache) && WellFormed(t) && !t.Triple? && t !in d.toId
    requires Lookup(es, ContentOf(t)).None? && |terms| <= MAX_TERM_ID
    ensures Consistent(terms + [t], Tables(d.slots + [Some(t)], d.toId[t := |terms|], d.parts, d.partsId), es, highWater, cache)
    ensures StaysUnique(es, terms, terms + [t])
  {
    AppendKeepsDelta(terms, d.slots, d.toId, t);
    AppendKeepsCover(terms, d.slots, es, highWater, cache, t);
    AppendRegularKeepsQuoted(terms, d.slots, d.parts, d.partsId, t);
    if NoCrossingRun(es) && Unique(terms) {
      UnknownTermIsNew(terms, d.slots, d.toId, d.parts, d.partsId, es, highWater, t);
      AppendKeepsUnique(terms, t);
    }
  }

  lemma AppendQuoted(terms: seq<Term>, d: Tables, es: seq<Entry>, highWater: nat, cache: Lru<nat, Term>, t: Term, c: Components)
    requires Consistent(terms, d, es, highWater, cache) && WellFormed(t) && t.Triple? && t !in d.toId && |terms| <= MAX_TERM_ID
    requires c.0 < |terms| && c.1 < |terms| && c.2 < |terms|
    requires t == Term.Triple(terms[c.0], terms[c.1], terms[c.2])
    ensures Consistent(terms + [t], Tables(d.slots + [Some(t)], d.toId[t := |terms|], d.parts[|terms| := c], d.partsId[c := |terms|]),
                       es, highWater, cache)
    ensures StaysUnique(es, terms, terms + [t])
  {
    AppendKeepsDelta(terms, d.slots, d.toId, t);
    AppendKeepsCover(terms, d.slots, es, highWater, cache, t);
    AppendQuotedKeepsQuoted(terms, d.slots, d.toId, d.parts, d.partsId, t, c);
    if NoCrossingRun(es) && Unique(terms) {
      UnknownTermIsNew(terms, d.slots, d.toId, d.parts, d.partsId, es, highWater, t);
      AppendKeepsUnique(terms, t);
    }
  }

  lemma SlotPerTerm(terms: seq<Term>, d: Tables, es: seq<Entry>, highWater: nat, cache: Lru<nat, Term>)
    requires Consistent(terms, d, es, highWater, cache)
    ensures |d.slots| == |terms| <= MAX_TERM_ID + 1
    ensures forall t :: t in d.toId ==> d.toId[t] < |terms| && terms[d.toId[t]] == t
  {
    forall t | t in d.toId ensures d.toId[t] < |terms| && terms[d.toId[t]] == t {
      assert Filed(d.slots, d.toId, t) && SlotAt(terms, d.slots, d.toId, d.toId[t]);
    }
  }

  lemma AppendKeepsUnique(terms: seq<Term>, t: Term)
    requires t !in terms && Unique(terms)
    ensures Unique(terms + [t])
  {
  }

  // ---- What interning does, on the meaning of a dictionary ----

  /** The terms by id, the ids of those still resident, and the compacted entries. */
  datatype View = View(terms: seq<Term>, delta: map<Term, nat>, entries: seq<Entry>)

  ghost function Appended(v: View, t: Term): (View, Result<nat>) {
    if |v.terms| > MAX_TERM_ID then (v, Err)
    else (View(v.terms + [t], v.delta[t := |v.terms|], v.entries), Ok(|v.terms|))
  }

  /** Resident terms first, then the components of a quoted triple or the compacted
      entries; what is found nowhere is appended. */
  ghost function AfterIntern(v: View, t: Term): (View, Result<nat>)
    decreases t
  {
    if t in v.delta then (v, Ok(v.delta[t]))
    else if t.Triple? then
      var (v1, s) := AfterIntern(v, t.s);
      if s.Err? then (v1, Err)
      else
        var (v2, p) := AfterIntern(v1, t.p);
        if p.Err? then (v2, Err)
        else
          var (v3, o) := AfterIntern(v2, t.o);
          if o.Err? then (v3, Err)
          else if t in v3.delta then (v3, Ok(v3.delta[t]))
          else Appended(v3, t)
    else
      match Lookup(v.entries, ContentOf(t))
      case Some(id) => (v, if id > MAX_TERM_ID then Err else Ok(id))
      case None => Appended(v, t)
  }

  /** What looking a term up finds. */
  ghost function LookedUpIn(v: View, t: Term): LookedUp {
    if t in v.delta then Found(v.delta[t])
    else if t.Triple? then (if v.entries == [] then Absent else Aborts)
    else
      match Lookup(v.entries, ContentOf(t))
      case Some(id) => IdIfSmall(id)
      case None => Absent
  }

  lemma TripleSteps(v: View, t: Term)
    requires t.Triple? && t !in v.delta
    ensures
      var (v1, s) := AfterIntern(v, t.s);
      var (v2, p) := AfterIntern(v1, t.p);
      var (v3, o) := AfterIntern(v2, t.o);
      AfterIntern(v, t)
      == if s.Err? then (v1, Err) else if p.Err? then (v2, Err) else if o.Err? then (v3, Err)
         else if t in v3.delta then (v3, Ok(v3.delta[t])) else Appended(v3, t)
  {
  }

  // ---- Sorting entries for compaction ----

  /** By key, entries of equal keys by id. */
  ghost predicate Ordered(es: seq<Entry>) {
    Sorted(es) && forall i, j :: 0 <= i < j < |es| && es[i].content.key == es[j].content.key ==> es[i].id < es[j].id
  }

  ghost predicate ByIds(es: seq<Entry>) { forall i, j :: 0 <= i < j < |es| ==> es[i].id < es[j].id }

  method Insert(es: seq<Entry>, e: Entry, ghost highWater: nat) returns (r: seq<Entry>)
    requires Ordered(es) && DistinctIds(es, highWater) && e.id < highWater && forall k :: 0 <= k < |es| ==> es[k].id < e.id
    ensures Ordered(r) && DistinctIds(r, highWater) && |r| == |es| + 1
    ensures forall x :: x in r <==> x == e || x in es
  {
    var i := |es|;
    while i > 0 && !KeyLe(es[i - 1].content.key, e.content.key)
      invariant 0 <= i <= |es|
      invariant forall j :: i <= j < |es| ==> !KeyLe(es[j].content.key, e.content.key)
    {
      i := i - 1;
    }
    r := es[..i] + [e] + es[i..];
    InsertedInOrder(es, e, i, r);
    InsertedDistinct(es, e, i, highWater, r);
    assert es == es[..i] + es[i..];
  }

  lemma InsertedInOrder(es: seq<Entry>, e: Entry, i: nat, r: seq<Entry>)
    requires Sorted(es) && i <= |es| && r == es[..i] + [e] + es[i..]
    requires i > 0 ==> KeyLe(es[i - 1].content.key, e.content.key)
    requires forall j :: i <= j < |es| ==> !KeyLe(es[j].content.key, e.content.key)
    ensures Sorted(r)
    ensures Ordered(es) && (forall k :: 0 <= k < |es| ==> es[k].id < e.id) ==> Ordered(r)
  {
    forall j | 0 <= j < i ensures KeyLe(es[j].content.key, e.content.key) {
      KeyOrder(es[j].content.key, es[i - 1].content.key, e.content.key);
    }
    forall j | i <= j < |es| ensures KeyLe(e.content.key, es[j].content.key) {
      KeyOrder(e.content.key, es[j].content.key, e.content.key);
    }
    forall j, k | 0 <= j < k < |r| ensures KeyLe(r[j].content.key, r[k].content.key) {
      var j', k' := if j > i then j - 1 else j, if k > i then k - 1 else k;
      assert r[j] == if j == i then e else es[j'];
      assert r[k] == if k == i then e else es[k'];
    }
    if Ordered(es) && forall k :: 0 <= k < |es| ==> es[k].id < e.id {
      forall j, k | 0 <= j < k < |r| && r[j].content.key == r[k].content.key ensures r[j].id < r[k].id {
        var j', k' := if j > i then j - 1 else j, if k > i then k - 1 else k;
        assert r[j] == if j == i then e else es[j'];
        assert r[k] == if k == i then e else es[k'];
        if j == i { KeyOrder(e.content.key, e.content.key, e.content.key); }
      }
    }
  }

  lemma InsertedDistinct(es: seq<Entry>, e: Entry, i: nat, highWater: nat, r: seq<Entry>)
    requires DistinctIds(es, highWater) && e.id < highWater && !HasEntry(es, e.id)
    requires i <= |es| && r == es[..i] + [e] + es[i..]
    ensures DistinctIds(r, highWater)
  {
  }

  /** Sorts by key, keeping the order of entries whose keys are equal: they come by id. */
  method SortEntries(es: seq<Entry>, ghost highWater: nat) returns (r: seq<Entry>)
    requires DistinctIds(es, highWater) && ByIds(es)
    ensures Ordered(r) && DistinctIds(r, highWater) && |r| == |es|
    ensures forall x :: x in r <==> x in es
  {
    r := [];
    for i := 0 to |es|
      invariant Ordered(r) && DistinctIds(r, highWater) && |r| == i
      invariant forall x :: x in r <==> x in es[..i]
    {
      forall k | 0 <= k < |r| ensures r[k].id < es[i].id {
        assert r[k] in es[..i];
      }
      r := Insert(r, es[i], highWater);
      assert es[..i + 1] == es[..i] + [es[i]];
    }
    assert es[..|es|] == es;
  }

  lemma BlockHoldsId(terms: seq<Term>, slots: seq<Option<Term>>, es: seq<Entry>, highWater: nat, ix: Index, id: nat)
    requires Covers(terms, slots, es, highWater) && PermutationOf(ix, es) && HasEntry(es, id)
    ensures var block := BlockFor(ix, es, id);
            block.Some? && HasEntry(block.value, id) && forall k: nat :: k < |block.value| ==> EntryAt(terms, block.value, k)
  {
    hide Sorted, FreedAt, EntryAt;
    var r :| 0 <= r < |es| && es[r].id == id;
    assert ix.id2rank[id] == r;
    hide PermutationOf, DistinctIds;
    var block, lo := BlockFor(ix, es, id).value, Base(BlockOf(r));
    assert block[r - lo] == es[r];
    forall k: nat | k < |block| ensures EntryAt(terms, block, k) { assert EntryAt(terms, es, lo + k); SameEntry(terms, es, lo + k, block, k); }
  }

  lemma SameEntry(terms: seq<Term>, es: seq<Entry>, r: nat, fs: seq<Entry>, q: nat)
    requires EntryAt(terms, es, r) && q < |fs| && fs[q] == es[r]
    ensures EntryAt(terms, fs, q)
  {
  }

  /** The id a lookup answers with belongs to the term that was asked for. */
  lemma FoundEntryIsTerm(terms: seq<Term>, d: Tables, es: seq<Entry>, highWater: nat, cache: Lru<nat, Term>, t: Term)
    requires Consistent(terms, d, es, highWater, cache) && WellFormed(t) && !t.Triple? && Lookup(es, ContentOf(t)).Some?
    ensures Lookup(es, ContentOf(t)).value < |terms| && terms[Lookup(es, ContentOf(t)).value] == t
  {
    LookupSound(es, ContentOf(t));
    var k: nat :| k < |es| && es[k] == Entry(ContentOf(t), Lookup(es, ContentOf(t)).value);
    assert EntryAt(terms, es, k);
    ContentIdentifiesTerm(terms[es[k].id], t);
  }

  // ---- Decoding into the cache ----

  /** Decodes a block of entries into the cache and picks out the wanted one. */
  method FillCache(cache: Lru<nat, Term>, block: seq<Entry>, id: nat, ghost terms: seq<Term>)
      returns (filled: Lru<nat, Term>, wanted: Option<Term>)
    requires CacheOf(terms, cache) && AllWellFormed(terms)
    requires forall k: nat :: k < |block| ==> EntryAt(terms, block, k)
    ensures CacheOf(terms, filled)
    ensures HasEntry(block, id) ==> id < |terms| && wanted == Some(terms[id])
  {
    filled, wanted := cache, None;
    for k := 0 to |block|
      invariant CacheOf(terms, filled)
      invariant wanted.Some? ==> id < |terms| && wanted.value == terms[id]
      invariant forall j :: 0 <= j < k && block[j].id == id ==> wanted.Some?
    {
      var e := block[k];
      assert EntryAt(terms, block, k);
      CodecRoundTrip(terms[e.id]);
      match FromContent(e.content) {
        case Err =>
        case Ok(t) =>
          if e.id == id { wanted := Some(t); }
          assert Remembered(terms, (e.id, t));
          filled := Put(filled, e.id, t);
      }
    }
  }

  // ---- Compaction ----

  /** Entries of all regular terms below `n`, in id order. */
  ghost predicate Collected(terms: seq<Term>, es: seq<Entry>, n: nat) {
    && DistinctIds(es, n)
    && (forall r: nat :: r < |es| ==> EntryAt(terms, es, r))
    && (forall i: nat :: i < n && i < |terms| && !terms[i].Triple? ==> HasEntry(es, i))
  }

  lemma CollectedStep(terms: seq<Term>, es: seq<Entry>, n: nat)
    requires Collected(terms, es, n) && n < |terms|
    ensures terms[n].Triple? ==> Collected(terms, es, n + 1)
    ensures !terms[n].Triple? ==> Collected(terms, es + [Entry(ContentOf(terms[n]), n)], n + 1)
  {
    if !terms[n].Triple? {
      var es' := es + [Entry(ContentOf(terms[n]), n)];
      forall r: nat | r < |es'| ensures EntryAt(terms, es', r) {
        if r < |es| { assert EntryAt(terms, es, r); }
      }
      forall i: nat | i < n + 1 && !terms[i].Triple? ensures HasEntry(es', i) {
        if i < n {
          var r :| 0 <= r < |es| && es[r].id == i;
          assert es'[r].id == i;
        } else {
          assert es'[|es|].id == i;
        }
      }
    }
  }

  lemma SortedStaysCollected(terms: seq<Term>, es: seq<Entry>, sorted: seq<Entry>, n: nat)
    requires Collected(terms, es, n) && DistinctIds(sorted, n) && forall e :: e in sorted <==> e in es
    ensures Collected(terms, sorted, n)
  {
    forall r: nat | r < |sorted| ensures EntryAt(terms, sorted, r) {
      assert sorted[r] in es;
      var q: nat :| q < |es| && es[q] == sorted[r];
      assert EntryAt(terms, es, q);
    }
    forall i: nat | i < n && i < |terms| && !terms[i].Triple? ensures HasEntry(sorted, i) {
      var q :| 0 <= q < |es| && es[q].id == i;
      assert es[q] in sorted;
    }
  }

  /** Slots below `n` after freeing: only quoted triples stay. */
  ghost predicate FreedBelow(before: Tables, after: Tables, n: nat) {
    && |after.slots| == |before.slots| && after.parts == before.parts && after.partsId == before.partsId
    && forall i: nat :: i < |before.slots| ==>
         after.slots[i] == if i < n && i !in before.parts then None else before.slots[i]
  }

  /** Frees the slot and the reverse entry of every regular term. */
  method FreeSlots(d: Tables, ghost terms: seq<Term>) returns (r: Tables)
    requires DeltaOf(terms, d.slots, d.toId)
    ensures FreedBelow(d, r, |d.slots|) && DeltaOf(terms, r.slots, r.toId)
  {
    r := d;
    for i := 0 to |d.slots|
      invariant FreedBelow(d, r, i) && DeltaOf(terms, r.slots, r.toId)
    {
      if i !in d.parts && r.slots[i].Some? {
        FreeOne(terms, r.slots, r.toId, i);
        r := r.(slots := r.slots[i := None], toId := r.toId - {r.slots[i].value});
      }
    }
  }

  lemma FreeOne(terms: seq<Term>, slots: seq<Option<Term>>, toId: map<Term, nat>, i: nat)
    requires DeltaOf(terms, slots, toId) && i < |slots| && slots[i].Some?
    ensures DeltaOf(terms, slots[i := None], toId - {slots[i].value})
  {
    var slots', toId' := slots[i := None], toId - {slots[i].value};
    assert SlotAt(terms, slots, toId, i);
    forall j: nat | j < |slots'| ensures SlotAt(terms, slots', toId', j) { assert SlotAt(terms, slots, toId, j); }
    forall t | t in toId' ensures Filed(slots', toId', t) { assert Filed(slots, toId, t); }
  }

  /** Freeing forgets regular terms only. */
  ghost predicate OnlyTriplesStay(before: map<Term, nat>, after: map<Term, nat>) {
    forall t :: (t in after <==> t in before && t.Triple?) && (t in after ==> after[t] == before[t])
  }

  lemma CompactedConsistent(terms: seq<Term>, d: Tables, r: Tables, es: seq<Entry>, es0: seq<Entry>, highWater: nat,
                            cache: Lru<nat, Term>, cleared: Lru<nat, Term>)
    requires Consistent(terms, d, es0, highWater, cache)
    requires FreedBelow(d, r, |terms|) && DeltaOf(terms, r.slots, r.toId)
    requires Collected(terms, es, |terms|) && Sorted(es) && WellKept(cleared) && cleared.items == []
    ensures Consistent(terms, r, es, |terms|, cleared)
    ensures forall i: nat :: i < |r.slots| ==> (r.slots[i].None? <==> !terms[i].Triple?)
    ensures OnlyTriplesStay(d.toId, r.toId)
  {
    forall i: nat | i < |terms|
      ensures QuotedAt(terms, r.slots, r.parts, r.partsId, i) && FreedAt(r.slots, es, i)
      ensures r.slots[i].None? <==> !terms[i].Triple?
    {
      assert QuotedAt(terms, d.slots, d.parts, d.partsId, i);
      if HasEntry(es, i) { var k: nat :| k < |es| && es[k].id == i; assert EntryAt(terms, es, k); }
    }
    forall t ensures (t in r.toId <==> t in d.toId && t.Triple?) && (t in r.toId ==> r.toId[t] == d.toId[t]) {
      if t in r.toId { assert Filed(r.slots, r.toId, t) && SlotAt(terms, r.slots, r.toId, r.toId[t]) && SlotAt(terms, d.slots, d.toId, r.toId[t]); }
      if t in d.toId { assert Filed(d.slots, d.toId, t) && SlotAt(terms, d.slots, d.toId, d.toId[t]) && SlotAt(terms, r.slots, r.toId, d.toId[t]); }
    }
  }

  /** The term of rank `r` is found under its own id. */
  ghost predicate FoundAt(terms: seq<Term>, es: seq<Entry>, r: nat) {
    EntryAt(terms, es, r) && Lookup(es, ContentOf(terms[es[r].id])) == Some(es[r].id)
  }

  /** Lookups of compacted terms are exact if and only if no equal-key run crosses a
      block boundary. */
  lemma LookupsExactIffNoCrossing(terms: seq<Term>, d: Tables, es: seq<Entry>, highWater: nat, cache: Lru<nat, Term>)
    requires Consistent(terms, d, es, highWater, cache) && Unique(terms)
    ensures NoCrossingRun(es) <==> forall r: nat :: r < |es| ==> FoundAt(terms, es, r)
  {
    forall i: nat, j: nat | i < j < |es| ensures es[i].content != es[j].content {
      assert EntryAt(terms, es, i) && EntryAt(terms, es, j);
      if es[i].content == es[j].content { ContentIdentifiesTerm(terms[es[i].id], terms[es[j].id]); }
    }
    LookupCompleteIffNoCrossing(es);
    forall r: nat | r < |es| ensures FoundAt(terms, es, r) <==> Lookup(es, es[r].content) == Some(es[r].id) {
      assert EntryAt(terms, es, r);
    }
  }

  // ---- The dictionary ----

  /** The answer to a lookup that adds nothing; `Aborts` is the source's panic. */
  datatype LookedUp = Found(id: nat) | Absent | Aborts

  function IdIfSmall(id: nat): LookedUp { if id > MAX_TERM_ID then Absent else Found(id) }

  datatype Handle = Owned(tier: Tier) | BlockCached(cached: BlockCachedTier)

  const EMPTY_TIER: Tier := Tier(Index(8, 0, 0, [], [], [], [], [], []), [])

  class Dictionary {
    var slots: seq<Option<Term>>
    var toId: map<Term, nat>
    var compacted: Handle
    var cache: Lru<nat, Term>
    var parts: map<nat, Components>
    var partsId: map<Components, nat>
    var graphToId: map<GraphName, nat>
    var graphNames: map<nat, GraphName>
    var nextGraph: nat
    ghost var terms: seq<Term>
    ghost var layout: Layout

    ghost function Cells(): set<object>
      reads this
    {
      {this} + if compacted.BlockCached? then {compacted.cached} else {}
    }

    ghost function HighWater(): nat
      reads this
    {
      if compacted.Owned? then compacted.tier.index.highWater else compacted.cached.index.highWater
    }

    ghost predicate TierValid()
      reads Cells()
    {
      match compacted
      case Owned(t) => TierOf(t, layout, t.index.highWater)
      case BlockCached(c) => c.Valid() && c.layout == layout
    }

    ghost predicate Represents()
      reads this
    {
      Consistent(terms, Tables(slots, toId, parts, partsId), layout.entries, HighWater(), cache)
    }

    ghost predicate Valid()
      reads Cells()
    {
      TierValid() && Represents() && TableOf(graphToId, graphNames, nextGraph)
    }

    constructor ()
      ensures Valid() && fresh(Cells())
      ensures terms == [] && graphNames == map[0 := DefaultGraph]
    {
      slots, toId, terms := [], map[], [];
      compacted, layout := Owned(EMPTY_TIER), Layout([], []);
      cache := Lru(DECODE_CACHE_CAPACITY, []);
      parts, partsId := map[], map[];
      graphToId, graphNames, nextGraph := map[DefaultGraph := 0], map[0 := DefaultGraph], 1;
    }

    /** Assembles a dictionary from tables rebuilt over a block-cached tier. */
    constructor FromParts(d: Tables, cached: BlockCachedTier, graphToId: map<GraphName, nat>, graphNames: map<nat, GraphName>,
                          nextGraph: nat, ghost terms: seq<Term>)
      requires cached.Valid() && TableOf(graphToId, graphNames, nextGraph)
      requires Consistent(terms, d, cached.layout.entries, cached.index.highWater, Lru(DECODE_CACHE_CAPACITY, []))
      ensures Valid() && Cells() == {this, cached} && this.terms == terms && layout == cached.layout
      ensures compacted == BlockCached(cached)
      ensures this.graphToId == graphToId && this.graphNames == graphNames && this.nextGraph == nextGraph
    {
      slots, toId, parts, partsId := d.slots, d.toId, d.parts, d.partsId;
      compacted, layout, cache := BlockCached(cached), cached.layout, Lru(DECODE_CACHE_CAPACITY, []);
      this.graphToId, this.graphNames, this.nextGraph, this.terms := graphToId, graphNames, nextGraph, terms;
    }

    // ---- The compacted tier, in either form ----

    method TierGetId(c: Content) returns (r: Option<nat>)
      requires Valid()
      modifies Cells() - {this}
      ensures Valid() && r == Lookup(layout.entries, c)
    {
      match compacted
      case Owned(t) => r := CompactedTier.GetId(t, c, layout);
      case BlockCached(b) => r := b.GetId(c);
    }

    method TierDecodeId(id: nat) returns (r: Option<Result<Content>>)
      requires Valid()
      modifies Cells() - {this}
      ensures Valid()
      ensures HasEntry(layout.entries, id) ==> id < |terms| && !terms[id].Triple? && r == Some(Ok(ContentOf(terms[id])))
    {
      match compacted {
        case Owned(t) =>
          var c := CompactedTier.DecodeId(t, id, layout);
          r := if c.None? then None else Some(Ok(c.value));
        case BlockCached(b) => r := b.DecodeId(id);
      }
      if HasEntry(layout.entries, id) {
        ghost var k :| 0 <= k < |layout.entries| && layout.entries[k].id == id;
        assert EntryAt(terms, layout.entries, k);
      }
    }

    method TierDecodeBlockFor(id: nat) returns (r: Option<Result<seq<Entry>>>)
      requires Valid()
      modifies Cells() - {this}
      ensures Valid()
      ensures HasEntry(layout.entries, id) ==>
                r.Some? && r.value.Ok? && HasEntry(r.value.value, id)
                && forall k: nat :: k < |r.value.value| ==> EntryAt(terms, r.value.value, k)
    {
      match compacted {
        case Owned(t) =>
          var es := CompactedTier.DecodeBlockForId(t, id, layout);
          r := if es.None? then None else Some(Ok(es.value));
          if HasEntry(layout.entries, id) { BlockHoldsId(terms, slots, layout.entries, HighWater(), t.index, id); }
        case BlockCached(b) =>
          r := b.DecodeBlockForId(id);
          if HasEntry(layout.entries, id) { BlockHoldsId(terms, slots, layout.entries, HighWater(), b.index, id); }
      }
    }

    // ---- Interning ----

    /** What interning may change: terms are only ever added at the end, and added
        twice only if lookups are inexact. */
    ghost predicate GrownFrom(handle: Handle, layout0: Layout, terms0: seq<Term>, graphs0: map<nat, GraphName>)
      reads Cells()
    {
      && Valid() && compacted == handle && layout == layout0 && graphNames == graphs0
      && terms0 <= terms && StaysUnique(layout0.entries, terms0, terms)
    }

    ghost function ViewOf(): View
      reads this
    {
      View(terms, toId, layout.entries)
    }

    /** Replaces the delta tables by ones that represent a longer term sequence. */
    method Fill(slots: seq<Option<Term>>, toId: map<Term, nat>, parts: map<nat, Components>, partsId: map<Components, nat>,
                ghost terms: seq<Term>)
      requires Valid() && this.terms <= terms && StaysUnique(layout.entries, this.terms, terms)
      requires Consistent(terms, Tables(slots, toId, parts, partsId), layout.entries, HighWater(), cache)
      modifies this
      ensures GrownFrom(old(compacted), old(layout), old(this.terms), old(graphNames))
      ensures this.terms == terms && this.toId == toId && this.slots == slots
    {
      hide Consistent, TierOf, TableOf, NoCrossingRun, Unique;
      this.slots, this.toId, this.parts, this.partsId, this.terms := slots, toId, parts, partsId, terms;
    }

    method Append(t: Term) returns (r: Result<nat>)
      requires Valid() && WellFormed(t) && !t.Triple? && t !in toId
      requires Lookup(layout.entries, ContentOf(t)).None?
      modifies this
      ensures GrownFrom(old(compacted), old(layout), old(terms), old(graphNames))
      ensures (ViewOf(), r) == Appended(old(ViewOf()), t)
    {
      hide Consistent, TierOf, TableOf, NoCrossingRun, Unique;
      SlotPerTerm(terms, Tables(slots, toId, parts, partsId), layout.entries, HighWater(), cache);
      if |slots| > MAX_TERM_ID { return Err; }
      AppendRegular(terms, Tables(slots, toId, parts, partsId), layout.entries, HighWater(), cache, t);
      var id := |slots|;
      Fill(slots + [Some(t)], toId[t := id], parts, partsId, terms + [t]);
      return Ok(id);
    }

    method AppendTriple(t: Term, c: Components) returns (r: Result<nat>)
      requires Valid() && WellFormed(t) && t.Triple? && t !in toId
      requires c.0 < |terms| && c.1 < |terms| && c.2 < |terms|
      requires t == Term.Triple(terms[c.0], terms[c.1], terms[c.2])
      modifies this
      ensures GrownFrom(old(compacted), old(layout), old(terms), old(graphNames)) && |old(terms)| <= |terms|
      ensures (ViewOf(), r) == Appended(old(ViewOf()), t)
      ensures r.Ok? ==> r.value == |old(terms)| && terms == old(terms) + [t]
      ensures r.Err? ==> |terms| > MAX_TERM_ID
    {
      hide Consistent, TierOf, TableOf, NoCrossingRun, Unique, QuotedOf, AllWellFormed, DeltaOf, CacheOf, Sorted, Covers;
      SlotPerTerm(terms, Tables(slots, toId, parts, partsId), layout.entries, HighWater(), cache);
      if |slots| > MAX_TERM_ID { return Err; }
      AppendQuoted(terms, Tables(slots, toId, parts, partsId), layout.entries, HighWater(), cache, t, c);
      var id := |slots|;
      Fill(slots + [Some(t)], toId[t := id], parts[id := c], partsId[c := id], terms + [t]);
      return Ok(id);
    }

    /** Gets or assigns the id of a term, components of a quoted triple first: exactly
        what `AfterIntern` says. Ids already given never change. */
    method Intern(t: Term) returns (r: Result<nat>)
      requires Valid() && WellFormed(t)
      modifies Cells()
      ensures GrownFrom(old(compacted), old(layout), old(terms), old(graphNames))
      ensures (ViewOf(), r) == AfterIntern(old(ViewOf()), t)
      ensures r.Ok? ==> r.value < |terms| && terms[r.value] == t
      ensures r.Err? ==> |terms| > MAX_TERM_ID
      decreases t, 1
    {
      hide TierOf, TableOf, QuotedOf, CacheOf, AllWellFormed, DeltaOf, NoCrossingRun, Sorted, Unique;
      SlotPerTerm(terms, Tables(slots, toId, parts, partsId), layout.entries, HighWater(), cache);
      if t in toId { return Ok(toId[t]); }
      if t.Triple? {
        r := InternTriple(t);
        return;
      }
      var found := TierGetId(ContentOf(t));
      if found.Some? {
        FoundEntryIsTerm(terms, Tables(slots, toId, parts, partsId), layout.entries, HighWater(), cache, t);
        if found.value > MAX_TERM_ID { return Err; }
        return Ok(found.value);
      }
      r := Append(t);
    }

    method InternTriple(t: Term) returns (r: Result<nat>)
      requires Valid() && WellFormed(t) && t.Triple? && t !in toId
      modifies Cells()
      ensures GrownFrom(old(compacted), old(layout), old(terms), old(graphNames))
      ensures (ViewOf(), r) == AfterIntern(old(ViewOf()), t)
      ensures r.Ok? ==> r.value < |terms| && terms[r.value] == t
      ensures r.Err? ==> |terms| > MAX_TERM_ID
      decreases t, 0
    {
      hide Consistent, TierOf, TableOf, NoCrossingRun, Unique, Appended, AfterIntern;
      TripleSteps(ViewOf(), t);
      var s := Intern(t.s);
      if s.Err? { return Err; }
      var p := Intern(t.p);
      if p.Err? { return Err; }
      var o := Intern(t.o);
      if o.Err? { return Err; }
      SlotPerTerm(terms, Tables(slots, toId, parts, partsId), layout.entries, HighWater(), cache);
      if t in toId { return Ok(toId[t]); }
      r := AppendTriple(t, (s.value, p.value, o.value));
    }

    // ---- Looking up without adding ----

    /** Finds the id of a term without adding it. The tier has no key for a quoted
        triple: asking for one that was never interned aborts, exactly while the tier
        holds anything. */
    method GetId(t: Term) returns (r: LookedUp)
      requires Valid() && WellFormed(t)
      modifies Cells() - {this}
      ensures Valid()
      ensures r.Aborts? <==> t.Triple? && t !in terms && layout.entries != []
      ensures r.Found? ==> r.id < |terms| && terms[r.id] == t
      ensures NoCrossingRun(layout.entries) && !r.Aborts? ==> (r.Found? <==> t in terms)
      ensures r == LookedUpIn(ViewOf(), t)
    {
      hide TableOf, CacheOf, AllWellFormed, NoCrossingRun, Sorted, Unique;
      SlotPerTerm(terms, Tables(slots, toId, parts, partsId), layout.entries, HighWater(), cache);
      if t in toId { return Found(toId[t]); }
      if t.Triple? {
        UnknownTripleIsNew(terms, Tables(slots, toId, parts, partsId), t);
        return if EncodedCount() == 0 then Absent else Aborts;
      }
      var found := TierGetId(ContentOf(t));
      if found.Some? {
        FoundEntryIsTerm(terms, Tables(slots, toId, parts, partsId), layout.entries, HighWater(), cache, t);
        return IdIfSmall(found.value);
      }
      if NoCrossingRun(layout.entries) {
        UnknownTermIsNew(terms, slots, toId, parts, partsId, layout.entries, HighWater(), t);
      }
      return Absent;
    }

    function EncodedCount(): nat
      reads Cells()
    {
      if compacted.Owned? then compacted.tier.index.encodedCount else compacted.cached.index.encodedCount
    }

    // ---- Decoding ----

    /** Every id decodes to the term it was given for, whatever the caches hold. */
    method GetTerm(id: nat) returns (r: Option<Term>)
      requires Valid()
      modifies Cells()
      ensures Valid() && terms == old(terms) && toId == old(toId) && compacted == old(compacted) && layout == old(layout)
      ensures r == if id < |terms| then Some(terms[id]) else None
    {
      hide TierOf, TableOf, NoCrossingRun, Sorted, Unique, DistinctIds;
      if id >= |slots| { return None; }
      assert SlotAt(terms, slots, toId, id) && FreedAt(slots, layout.entries, id);
      if slots[id].Some? { return slots[id]; }
      var touched := Get(cache, id);
      assert touched.1.Some? ==> Remembered(terms, (id, touched.1.value));
      cache := touched.0;
      if touched.1.Some? { return touched.1; }
      var block := TierDecodeBlockFor(id);
      if block.None? || block.value.Err? { return None; }
      var filled;
      filled, r := FillCache(cache, block.value.value, id, terms);
      cache := filled;
    }

    // ---- Graph names ----

    /** Gets or assigns a graph id; fails exactly when the name is new and all 255 ids are taken. */
    method InternGraph(g: GraphName) returns (r: Result<nat>)
      requires Valid()
      modifies this`graphToId, this`graphNames, this`nextGraph
      ensures Valid()
      ensures r.Ok? ==> r.value in graphNames && graphNames[r.value] == g
      ensures forall i :: i in old(graphNames) ==> i in graphNames && graphNames[i] == old(graphNames)[i]
      ensures r.Err? <==> g !in old(graphToId) && forall i: nat :: 1 <= i <= 255 ==> i in old(graphNames)
    {
      hide Consistent, TierOf;
      if g in graphToId { return Ok(graphToId[g]); }
      if nextGraph == 0 { return Err; }
      AssignKeepsTable(graphToId, graphNames, nextGraph, g);
      var id := nextGraph;
      nextGraph := After(nextGraph);
      graphToId, graphNames := graphToId[g := id], graphNames[id := g];
      return Ok(id);
    }

    // ---- Compaction ----

    method CollectEntries() returns (r: Result<seq<Entry>>)
      requires Valid()
      modifies Cells() - {this}
      ensures Valid() && r.Ok? && Collected(terms, r.value, |terms|) && ByIds(r.value)
    {
      hide TierOf, TableOf, NoCrossingRun, Sorted, Unique, CacheOf, TierValid;
      var es := [];
      for i := 0 to |slots|
        invariant Valid() && Collected(terms, es, i) && ByIds(es)
      {
        assert SlotAt(terms, slots, toId, i) && FreedAt(slots, layout.entries, i) && QuotedAt(terms, slots, parts, partsId, i);
        CollectedStep(terms, es, i);
        if i !in parts {
          var t := slots[i];
          if t.None? {
            var c := TierDecodeId(i);
            CodecRoundTrip(terms[i]);
            if c.None? || c.value.Err? { return Err; }
            match FromContent(c.value.value)
            case Err => return Err;
            case Ok(decoded) => t := Some(decoded);
          }
          es := es + [Entry(ContentOf(t.value), i)];
        }
      }
      return Ok(es);
    }

    /** Folds every regular term into a fresh compacted tier. The term sequence does not
        change; what does is where each term is kept. */
    method Compact() returns (r: Result<()>)
      requires Valid()
      modifies Cells()
      ensures r.Ok? && terms == old(terms) && compacted.Owned? && HighWater() == |terms|
      ensures graphNames == old(graphNames) && graphToId == old(graphToId) && nextGraph == old(nextGraph)
      ensures Represents() && Collected(terms, layout.entries, |terms|) && Ordered(layout.entries) && cache.items == []
      ensures forall i: nat :: i < |slots| ==> (slots[i].None? <==> !terms[i].Triple?)
      ensures OnlyTriplesStay(old(toId), toId)
      ensures FitsU32(|compacted.tier.buf|) ==> Valid()
    {
      hide TierOf, TableOf, NoCrossingRun, Unique;
      var collected := CollectEntries();
      if collected.Err? { return Err; }
      var es := SortEntries(collected.value, |terms|);
      SortedStaysCollected(terms, collected.value, es, |terms|);
      var t;
      ghost var l;
      t, l := Build(es, |slots|);
      var freed := FreeSlots(Tables(slots, toId, parts, partsId), terms);
      CompactedConsistent(terms, Tables(slots, toId, parts, partsId), freed, es, layout.entries, HighWater(), cache, Lru(cache.capacity, []));
      slots, toId, cache := freed.slots, freed.toId, Lru(cache.capacity, []);
      compacted, layout := Owned(t), l;
      return Ok(());
    }
  }
}
