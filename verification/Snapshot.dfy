/** Writing a freshly compacted dictionary to flat arrays and reopening it over
    compressed blocks. */
module Snapshots {
  import opened Options
  import opened Sequences
  import opened Bytes
  import opened FrontCoding
  import opened CompactedTier
  import opened Terms
  import opened Caches
  import opened BlockCache
  import opened GraphNames
  import opened Dictionaries

  // ---- The graph table ----

  datatype GraphArrays = GraphArrays(ids: seq<nat>, kinds: seq<nat>, text: Text, offsets: seq<nat>)

  function KindOf(g: GraphName): nat {
    match g
    case NamedGraph(_) => 0
    case BlankGraph(_) => 1
    case DefaultGraph => 2
  }

  function NameText(g: GraphName): Text {
    match g
    case NamedGraph(iri) => iri
    case BlankGraph(name) => name
    case DefaultGraph => []
  }

  function GraphFrom(kind: nat, text: Text): Result<GraphName> {
    match kind
    case 0 => Ok(NamedGraph(text))
    case 1 => Ok(BlankGraph(text))
    case 2 => Ok(DefaultGraph)
    case _ => Err
  }

  lemma GraphRoundTrip(g: GraphName)
    ensures GraphFrom(KindOf(g), NameText(g)) == Ok(g)
  {
  }

  /** Position `k` of the arrays describes the graph of id `ids[k]`; `texts` are the
      names that were concatenated. */
  ghost predicate GraphAt(a: GraphArrays, texts: seq<Text>, names: map<nat, GraphName>, k: nat) {
    && k < |a.ids| && k < |a.kinds| && k < |a.offsets| && k < |texts|
    && a.ids[k] in names && a.kinds[k] == KindOf(names[a.ids[k]]) && texts[k] == NameText(names[a.ids[k]])
    && a.offsets[k] == Truncated32(|Concat(texts, k)|)
  }

  ghost predicate ArraysOf(a: GraphArrays, texts: seq<Text>, names: map<nat, GraphName>) {
    && |a.ids| == |a.kinds| == |a.offsets| == |texts| && Distinct(a.ids)
    && (forall i :: i in a.ids ==> i in names)
    && (forall k: nat :: k < |a.ids| ==> GraphAt(a, texts, names, k))
    && a.text == Concat(texts, |texts|)
  }

  lemma {:induction false} ConcatExtends(texts: seq<Text>, more: Text, n: nat)
    requires n <= |texts|
    ensures Concat(texts + [more], n) == Concat(texts, n)
    decreases n
  {
    if n > 0 { ConcatExtends(texts, more, n - 1); }
  }

  lemma ArraysExtend(a: GraphArrays, texts: seq<Text>, names: map<nat, GraphName>, id: nat)
    requires ArraysOf(a, texts, names) && id in names && id !in a.ids
    ensures ArraysOf(GraphArrays(a.ids + [id], a.kinds + [KindOf(names[id])], a.text + NameText(names[id]),
                                 a.offsets + [Truncated32(|a.text|)]),
                     texts + [NameText(names[id])], names)
  {
    var a' := GraphArrays(a.ids + [id], a.kinds + [KindOf(names[id])], a.text + NameText(names[id]),
                          a.offsets + [Truncated32(|a.text|)]);
    var texts' := texts + [NameText(names[id])];
    ConcatExtends(texts, NameText(names[id]), |texts|);
    forall k: nat | k < |a'.ids| ensures GraphAt(a', texts', names, k) {
      ConcatExtends(texts, NameText(names[id]), if k < |texts| then k else |texts|);
      if k < |a.ids| { assert GraphAt(a, texts, names, k); }
    }
  }

  /** Flattens the table in whatever order the map yields its entries. */
  method WriteGraphs(names: map<nat, GraphName>) returns (a: GraphArrays, ghost texts: seq<Text>)
    ensures ArraysOf(a, texts, names) && forall i :: i in names ==> i in a.ids
    ensures exists ts :: ArraysOf(a, ts, names)
  {
    a, texts := GraphArrays([], [], [], []), [];
    var rest := names.Keys;
    while rest != {}
      invariant rest <= names.Keys && ArraysOf(a, texts, names)
      invariant forall i :: i in names <==> i in a.ids || i in rest
      invariant forall i :: i in rest ==> i !in a.ids
      decreases rest
    {
      var id :| id in rest;
      rest := rest - {id};
      var g := names[id];
      ArraysExtend(a, texts, names, id);
      a := GraphArrays(a.ids + [id], a.kinds + [KindOf(g)], a.text + NameText(g), a.offsets + [Truncated32(|a.text|)]);
      texts := texts + [NameText(g)];
    }
  }

  /** The part of the table listed before position `k`. */
  ghost predicate ReadUpTo(a: GraphArrays, toId0: map<GraphName, nat>, names0: map<nat, GraphName>, k: nat,
                           toId: map<GraphName, nat>, names: map<nat, GraphName>)
    requires k <= |a.ids|
  {
    && (forall i: nat :: i in names <==> i in a.ids[..k])
    && (forall i :: i in names ==> i in names0 && names[i] == names0[i])
    && (forall g :: g in toId <==> g in toId0 && toId0[g] in a.ids[..k])
    && (forall g :: g in toId ==> toId[g] == toId0[g])
  }

  lemma ReadStep(a: GraphArrays, toId0: map<GraphName, nat>, names0: map<nat, GraphName>, next: nat, k: nat,
                 toId: map<GraphName, nat>, names: map<nat, GraphName>)
    requires TableOf(toId0, names0, next) && k < |a.ids| && a.ids[k] in names0
    requires ReadUpTo(a, toId0, names0, k, toId, names)
    ensures ReadUpTo(a, toId0, names0, k + 1, toId[names0[a.ids[k]] := a.ids[k]], names[a.ids[k] := names0[a.ids[k]]])
  {
    assert a.ids[..k + 1] == a.ids[..k] + [a.ids[k]];
  }

  /** Only the default graph may be missing from the arrays. */
  lemma ReadAll(a: GraphArrays, toId0: map<GraphName, nat>, names0: map<nat, GraphName>, next: nat,
                toId: map<GraphName, nat>, names: map<nat, GraphName>)
    requires TableOf(toId0, names0, next) && ReadUpTo(a, toId0, names0, |a.ids|, toId, names)
    requires forall i :: i in names0 && i != 0 ==> i in a.ids
    ensures toId0 == (if DefaultGraph in toId then toId else toId[DefaultGraph := 0])
    ensures names0 == (if 0 in names then names else names[0 := DefaultGraph])
  {
    assert a.ids[..|a.ids|] == a.ids;
  }

  /** Reads the table back, adding the default graph should it be missing. */
  method ReadGraphs(a: GraphArrays, ghost texts: seq<Text>, ghost toId0: map<GraphName, nat>, ghost names0: map<nat, GraphName>,
                    ghost next: nat)
      returns (r: Result<(map<GraphName, nat>, map<nat, GraphName>)>)
    requires ArraysOf(a, texts, names0) && (forall i :: i in names0 && i != 0 ==> i in a.ids)
    requires TableOf(toId0, names0, next) && FitsU32(|a.text|)
    ensures r == Ok((toId0, names0))
  {
    hide TableOf;
    var toId: map<GraphName, nat>, names: map<nat, GraphName> := map[], map[];
    for k := 0 to |a.ids|
      invariant ReadUpTo(a, toId0, names0, k, toId, names)
    {
      NameSlice(a, texts, names0, k);
      GraphRoundTrip(names0[a.ids[k]]);
      var end := if k + 1 < |a.offsets| then a.offsets[k + 1] else |a.text|;
      var g := GraphFrom(a.kinds[k], a.text[a.offsets[k]..end]);
      if g.Err? { return Err; }
      ReadStep(a, toId0, names0, next, k, toId, names);
      toId, names := toId[g.value := a.ids[k]], names[a.ids[k] := g.value];
    }
    ReadAll(a, toId0, names0, next, toId, names);
    if DefaultGraph !in toId { toId := toId[DefaultGraph := 0]; }
    if 0 !in names { names := names[0 := DefaultGraph]; }
    return Ok((toId, names));
  }

  lemma NameSlice(a: GraphArrays, texts: seq<Text>, names: map<nat, GraphName>, k: nat)
    requires ArraysOf(a, texts, names) && FitsU32(|a.text|) && k < |a.ids|
    ensures a.ids[k] in names && a.kinds[k] == KindOf(names[a.ids[k]])
    ensures var end := if k + 1 < |a.offsets| then a.offsets[k + 1] else |a.text|;
            a.offsets[k] <= end <= |a.text| && a.text[a.offsets[k]..end] == NameText(names[a.ids[k]])
  {
    assert GraphAt(a, texts, names, k);
    ConcatAt(texts, k);
    if k + 1 < |a.offsets| {
      assert GraphAt(a, texts, names, k + 1);
      ConcatAt(texts, k + 1);
    }
  }

  // ---- Quoted triples ----

  datatype TripleArrays = TripleArrays(ids: seq<nat>, s: seq<nat>, p: seq<nat>, o: seq<nat>)

  /** Position `k` names a quoted triple by its id and its components, all of them earlier. */
  ghost predicate TripleAt(a: TripleArrays, terms: seq<Term>, k: nat) {
    && k < |a.ids| && k < |a.s| && k < |a.p| && k < |a.o| && a.ids[k] < |terms|
    && a.s[k] < a.ids[k] && a.p[k] < a.ids[k] && a.o[k] < a.ids[k]
    && terms[a.ids[k]] == Term.Triple(terms[a.s[k]], terms[a.p[k]], terms[a.o[k]])
  }

  ghost predicate TriplesUpTo(a: TripleArrays, terms: seq<Term>, n: nat) {
    && |a.ids| == |a.s| == |a.p| == |a.o| == n
    && forall k: nat :: k < n ==> TripleAt(a, terms, k)
  }

  ghost predicate TriplesOf(a: TripleArrays, terms: seq<Term>) {
    && TriplesUpTo(a, terms, |a.ids|) && Increasing(a.ids)
    && forall i: nat :: i in a.ids <==> i < |terms| && terms[i].Triple?
  }

  method WriteTriples(parts: map<nat, Components>, ghost terms: seq<Term>, ghost d: Tables) returns (a: TripleArrays)
    requires QuotedOf(terms, d.slots, d.parts, d.partsId) && parts == d.parts
    ensures TriplesOf(a, terms)
  {
    var ids := InOrder(parts.Keys);
    a := TripleArrays([], [], [], []);
    for k := 0 to |ids|
      invariant a.ids == ids[..k] && TriplesUpTo(a, terms, k)
    {
      var c := parts[ids[k]];
      assert QuotedAt(terms, d.slots, d.parts, d.partsId, ids[k]);
      ghost var before := a;
      a := TripleArrays(a.ids + [ids[k]], a.s + [c.0], a.p + [c.1], a.o + [c.2]);
      forall j: nat | j < k + 1 ensures TripleAt(a, terms, j) {
        if j < k { assert TripleAt(before, terms, j); }
      }
      assert ids[..k + 1] == ids[..k] + [ids[k]];
    }
    assert ids[..|ids|] == ids;
    forall i: nat ensures i in a.ids <==> i < |terms| && terms[i].Triple? {
      if i < |terms| { assert QuotedAt(terms, d.slots, d.parts, d.partsId, i); }
    }
  }

  // ---- Rebuilding ----

  ghost predicate UniqueTriples(terms: seq<Term>) {
    forall i, j :: 0 <= i < j < |terms| && terms[i].Triple? ==> terms[i] != terms[j]
  }

  /** Id `i` once all quoted triples below `n` are back. */
  ghost predicate RebuiltAt(terms: seq<Term>, d: Tables, n: nat, i: nat) {
    && i < |terms| && i < |d.slots|
    && d.slots[i] == (if terms[i].Triple? && i < n then Some(terms[i]) else None)
    && (i in d.parts <==> terms[i].Triple? && i < n)
    && (i in d.parts ==>
          var (s, p, o) := d.parts[i];
          && s < i && p < i && o < i && terms[i] == Term.Triple(terms[s], terms[p], terms[o])
          && d.parts[i] in d.partsId && d.partsId[d.parts[i]] == i)
  }

  ghost predicate RebuiltBelow(terms: seq<Term>, d: Tables, n: nat) {
    && |d.slots| == |terms| && DeltaOf(terms, d.slots, d.toId)
    && (forall i :: i in d.parts ==> i < |terms|)
    && (forall i: nat :: i < |terms| ==> RebuiltAt(terms, d, n, i))
    && (forall c :: c in d.partsId ==> d.partsId[c] in d.parts && d.parts[d.partsId[c]] == c)
  }

  lemma SkipRegular(terms: seq<Term>, d: Tables, m: nat, n: nat)
    requires RebuiltBelow(terms, d, m) && m <= n && forall i: nat :: m <= i < n && i < |terms| ==> !terms[i].Triple?
    ensures RebuiltBelow(terms, d, n)
  {
    forall i: nat | i < |terms| ensures RebuiltAt(terms, d, n, i) { assert RebuiltAt(terms, d, m, i); }
  }

  function Restored(d: Tables, id: nat, t: Term, c: Components): Tables
    requires id < |d.slots|
  {
    Tables(d.slots[id := Some(t)], d.toId[t := id], d.parts[id := c], d.partsId[c := id])
  }

  lemma RestoreDelta(terms: seq<Term>, d: Tables, id: nat)
    requires RebuiltBelow(terms, d, id) && UniqueTriples(terms) && id < |terms| && terms[id].Triple?
    ensures DeltaOf(terms, d.slots[id := Some(terms[id])], d.toId[terms[id] := id])
  {
    var slots', toId' := d.slots[id := Some(terms[id])], d.toId[terms[id] := id];
    forall i: nat | i < |slots'| ensures SlotAt(terms, slots', toId', i) {
      assert SlotAt(terms, d.slots, d.toId, i) && RebuiltAt(terms, d, id, i);
    }
    forall t | t in toId' ensures Filed(slots', toId', t) {
      if t != terms[id] {
        assert Filed(d.slots, d.toId, t) && RebuiltAt(terms, d, id, d.toId[t]);
      }
    }
  }

  lemma RestoreOne(terms: seq<Term>, d: Tables, id: nat, c: Components)
    requires RebuiltBelow(terms, d, id) && UniqueTriples(terms) && id < |terms|
    requires c.0 < id && c.1 < id && c.2 < id && terms[id] == Term.Triple(terms[c.0], terms[c.1], terms[c.2])
    ensures RebuiltBelow(terms, Restored(d, id, terms[id], c), id + 1)
  {
    var d' := Restored(d, id, terms[id], c);
    RestoreDelta(terms, d, id);
    forall i: nat | i in d.parts ensures d.parts[i] != c && i < id { assert RebuiltAt(terms, d, id, i); }
    var n := id + 1;
    forall i: nat | i < |terms| ensures RebuiltAt(terms, d', n, i) { assert RebuiltAt(terms, d, id, i); }
  }

  lemma RebuiltIsConsistent(terms: seq<Term>, d: Tables, es: seq<Entry>, cache: Lru<nat, Term>)
    requires RebuiltBelow(terms, d, |terms|) && AllWellFormed(terms) && |terms| <= MAX_TERM_ID + 1
    requires Collected(terms, es, |terms|) && Sorted(es) && WellKept(cache) && cache.items == []
    ensures Consistent(terms, d, es, |terms|, cache)
  {
    forall i: nat | i < |terms|
      ensures QuotedAt(terms, d.slots, d.parts, d.partsId, i) && FreedAt(d.slots, es, i)
    {
      assert RebuiltAt(terms, d, |terms|, i);
      if HasEntry(es, i) { var r: nat :| r < |es| && es[r].id == i; assert EntryAt(terms, es, r); }
    }
  }

  /** A component is either already rebuilt or a regular term of the tier: components
      come before the triples that name them, so no gap of the id index is ever read. */
  method DecodeComponent(cached: BlockCachedTier, d: Tables, raw: nat, ghost n: nat, ghost terms: seq<Term>) returns (r: Result<Term>)
    requires cached.Valid() && AllWellFormed(terms)
    requires RebuiltBelow(terms, d, n) && raw < n && raw < |terms| && Collected(terms, cached.layout.entries, |terms|)
    modifies cached
    ensures cached.Valid() && r == Ok(terms[raw])
  {
    assert RebuiltAt(terms, d, n, raw);
    if d.slots[raw].Some? { return Ok(d.slots[raw].value); }
    assert HasEntry(cached.layout.entries, raw);
    ghost var k: nat :| k < |cached.layout.entries| && cached.layout.entries[k].id == raw;
    assert EntryAt(terms, cached.layout.entries, k);
    CodecRoundTrip(terms[raw]);
    var c := cached.DecodeId(raw);
    if c.None? || c.value.Err? { return Err; }
    return FromContent(c.value.value);
  }

  /** Puts a quoted triple together, refusing components of the wrong kind. */
  function MakeTriple(s: Term, p: Term, o: Term): Result<Term> {
    if (s.NamedNode? || s.BlankNode?) && p.NamedNode? then Ok(Term.Triple(s, p, o)) else Err
  }

  method RebuildTriples(cached: BlockCachedTier, a: TripleArrays, highWater: nat, ghost terms: seq<Term>) returns (r: Result<Tables>)
    requires cached.Valid() && highWater == |terms| && AllWellFormed(terms) && UniqueTriples(terms)
    requires TriplesOf(a, terms) && Collected(terms, cached.layout.entries, |terms|)
    modifies cached
    ensures cached.Valid() && r.Ok? && RebuiltBelow(terms, r.value, |terms|)
  {
    hide TierOf, Sorted;
    var d := Tables(seq(highWater, _ => None), map[], map[], map[]);
    ghost var n: nat := 0;
    for k := 0 to |a.ids|
      invariant cached.Valid() && RebuiltBelow(terms, d, n) && n <= |terms|
      invariant forall j :: k <= j < |a.ids| ==> a.ids[j] >= n
      invariant forall j :: 0 <= j < k ==> a.ids[j] < n
    {
      var id := a.ids[k];
      assert TripleAt(a, terms, k);
      SkipTo(a, terms, d, n, k, id);
      var s := DecodeComponent(cached, d, a.s[k], id, terms);
      if s.Err? { return Err; }
      var p := DecodeComponent(cached, d, a.p[k], id, terms);
      if p.Err? { return Err; }
      var o := DecodeComponent(cached, d, a.o[k], id, terms);
      if o.Err? { return Err; }
      assert WellFormed(terms[id]);
      var t := MakeTriple(s.value, p.value, o.value);
      if t.Err? { return Err; }
      RestoreOne(terms, d, id, (a.s[k], a.p[k], a.o[k]));
      d := Restored(d, id, t.value, (a.s[k], a.p[k], a.o[k]));
      n := id + 1;
    }
    SkipTo(a, terms, d, n, |a.ids|, |terms|);
    return Ok(d);
  }

  /** Between the triples listed before position `k` and those from it on there is none. */
  lemma SkipTo(a: TripleArrays, terms: seq<Term>, d: Tables, n: nat, k: nat, m: nat)
    requires TriplesOf(a, terms) && RebuiltBelow(terms, d, n) && k <= |a.ids| && n <= m
    requires forall j :: k <= j < |a.ids| ==> a.ids[j] >= m
    requires forall j :: 0 <= j < k ==> a.ids[j] < n
    ensures RebuiltBelow(terms, d, m)
  {
    forall i: nat | n <= i < m && i < |terms| ensures !terms[i].Triple? {
      assert i !in a.ids;
    }
    SkipRegular(terms, d, n, m);
  }

  // ---- The whole snapshot ----

  datatype Snapshot = Snapshot(nextGraph: nat, tier: Tier, triples: TripleArrays, graphs: GraphArrays)

  /** Everything a dictionary means: its terms and its graph table. */
  datatype Meaning = Meaning(terms: seq<Term>, graphToId: map<GraphName, nat>, graphNames: map<nat, GraphName>, nextGraph: nat)

  ghost predicate SnapshotOf(snap: Snapshot, l: Layout, texts: seq<Text>, m: Meaning) {
    && TierOf(snap.tier, l, |m.terms|) && Sorted(l.entries) && Collected(m.terms, l.entries, |m.terms|)
    && |m.terms| <= MAX_TERM_ID + 1 && AllWellFormed(m.terms) && UniqueTriples(m.terms) && TriplesOf(snap.triples, m.terms)
    && ArraysOf(snap.graphs, texts, m.graphNames) && (forall i :: i in m.graphNames ==> i in snap.graphs.ids)
    && TableOf(m.graphToId, m.graphNames, m.nextGraph) && snap.nextGraph == m.nextGraph
  }

  ghost function MeaningOf(d: Dictionary): Meaning
    reads d
  {
    Meaning(d.terms, d.graphToId, d.graphNames, d.nextGraph)
  }

  lemma TriplesAreUnique(terms: seq<Term>, d: Tables)
    requires DeltaOf(terms, d.slots, d.toId) && QuotedOf(terms, d.slots, d.parts, d.partsId)
    ensures UniqueTriples(terms)
  {
    forall i: nat, j: nat | i < j < |terms| && terms[i].Triple? ensures terms[i] != terms[j] {
      assert QuotedAt(terms, d.slots, d.parts, d.partsId, i) && SlotAt(terms, d.slots, d.toId, i);
      assert QuotedAt(terms, d.slots, d.parts, d.partsId, j) && SlotAt(terms, d.slots, d.toId, j);
    }
  }

  /** Taken right after a compaction, while the tier is owned and holds all regular terms. */
  method ToSnapshot(d: Dictionary) returns (snap: Snapshot, ghost texts: seq<Text>)
    requires d.Valid() && d.compacted.Owned? && Collected(d.terms, d.layout.entries, |d.terms|)
    requires d.HighWater() == |d.terms|
    ensures SnapshotOf(snap, d.layout, texts, MeaningOf(d))
    ensures exists names :: SnapshotOf(snap, d.layout, names, MeaningOf(d))
  {
    hide TierOf, TableOf, Sorted, Collected;
    TriplesAreUnique(d.terms, Tables(d.slots, d.toId, d.parts, d.partsId));
    var triples := WriteTriples(d.parts, d.terms, Tables(d.slots, d.toId, d.parts, d.partsId));
    var graphs;
    graphs, texts := WriteGraphs(d.graphNames);
    snap := Snapshot(d.nextGraph, d.compacted.tier, triples, graphs);
  }

  /** Reopens a snapshot over compressed blocks of its buffer. The dictionary that comes
      back has the same terms under the same ids and the same graph table. */
  method Reopen(snap: Snapshot, size: nat, compress: Text -> Text, decompress: Codec, capacity: nat,
                ghost l: Layout, ghost texts: seq<Text>, ghost m: Meaning)
      returns (r: Result<Dictionary>)
    requires SnapshotOf(snap, l, texts, m) && FitsU32(|snap.graphs.text|)
    requires size > 0 && forall x :: decompress(compress(x)) == Some(x)
    ensures r.Ok? && r.value.Valid() && fresh(r.value.Cells()) && MeaningOf(r.value) == m
  {
    hide Sorted, TableOf, BlocksOf, PermutationOf, ArraysOf, Holds;
    var blocks := CompressBlocks(snap.tier.buf, size, compress, decompress);
    var cached := new BlockCachedTier(snap.tier.index, blocks, decompress, capacity, l);
    var tables := RebuildTriples(cached, snap.triples, cached.index.highWater, m.terms);
    if tables.Err? { return Err; }
    var graphs := ReadGraphs(snap.graphs, texts, m.graphToId, m.graphNames, m.nextGraph);
    if graphs.Err? { return Err; }
    RebuiltIsConsistent(m.terms, tables.value, l.entries, Lru(DECODE_CACHE_CAPACITY, []));
    var d := new Dictionary.FromParts(tables.value, cached, graphs.value.0, graphs.value.1, snap.nextGraph, m.terms);
    return Ok(d);
  }

  /** The names, listed in some order, are too long for 32-bit offsets. */
  ghost predicate NamesTooLong(names: map<nat, GraphName>) {
    exists a, texts :: ArraysOf(a, texts, names) && !FitsU32(|a.text|)
  }

  /** Compacts, takes a snapshot and reopens it: nothing anyone could look up changes.
      Nothing is saved only if a buffer outgrew its 32-bit offsets. */
  method SaveAndReopen(d: Dictionary, size: nat, compress: Text -> Text, decompress: Codec, capacity: nat)
      returns (r: Option<Dictionary>)
    requires d.Valid() && size > 0 && forall x :: decompress(compress(x)) == Some(x)
    modifies d.Cells()
    ensures r.Some? ==> r.value.Valid() && MeaningOf(r.value) == old(MeaningOf(d))
    ensures d.compacted.Owned? && MeaningOf(d) == old(MeaningOf(d))
    ensures r.None? ==> !FitsU32(|d.compacted.tier.buf|) || NamesTooLong(old(d.graphNames))
  {
    hide TierOf, Consistent, TableOf, Collected, ArraysOf, TriplesOf, Sorted, UniqueTriples, AllWellFormed;
    var _ := d.Compact();
    if !FitsU32(|d.compacted.tier.buf|) { return None; }
    var snap;
    ghost var texts;
    snap, texts := ToSnapshot(d);
    if !FitsU32(|snap.graphs.text|) { return None; }
    var reopened := Reopen(snap, size, compress, decompress, capacity, d.layout, texts, MeaningOf(d));
    return Some(reopened.value);
  }
}
