/** What interning does to the meaning of a dictionary, over any view of it. */
module InternTheory {
  import opened Options
  import opened Bytes
  import opened FrontCoding
  import opened CompactedTier
  import opened LookupTheory
  import opened Terms
  import opened Dictionaries

  // ---- Sound views ----

  ghost predicate Resident(v: View, i: nat) {
    i < |v.terms| && v.terms[i] in v.delta && v.delta[v.terms[i]] == i
  }

  /** Every id is kept in exactly one of the two tiers, quoted triples in the delta. */
  ghost predicate HomeAt(v: View, i: nat) {
    i < |v.terms| && (HasEntry(v.entries, i) <==> !Resident(v, i)) && (v.terms[i].Triple? ==> Resident(v, i))
  }

  ghost predicate DeltaTrue(v: View, t: Term) { t in v.delta && v.delta[t] < |v.terms| && v.terms[v.delta[t]] == t }

  ghost predicate Sound(v: View) {
    && AllWellFormed(v.terms) && Sorted(v.entries) && DistinctIds(v.entries, |v.terms|)
    && (forall r: nat :: r < |v.entries| ==> EntryAt(v.terms, v.entries, r))
    && (forall t :: t in v.delta ==> DeltaTrue(v, t))
    && (forall i: nat :: i < |v.terms| ==> HomeAt(v, i))
  }

  lemma ConsistentIsSound(terms: seq<Term>, d: Tables, es: seq<Entry>, highWater: nat, cache: Caches.Lru<nat, Term>)
    requires Consistent(terms, d, es, highWater, cache)
    ensures Sound(View(terms, d.toId, es))
  {
    var v := View(terms, d.toId, es);
    forall t | t in d.toId ensures DeltaTrue(v, t) { assert Filed(d.slots, d.toId, t) && SlotAt(terms, d.slots, d.toId, d.toId[t]); }
    forall i: nat | i < |terms| ensures HomeAt(v, i) {
      assert SlotAt(terms, d.slots, d.toId, i) && FreedAt(d.slots, es, i) && QuotedAt(terms, d.slots, d.parts, d.partsId, i);
      if Resident(v, i) { assert Filed(d.slots, d.toId, terms[i]); }
    }
  }

  // ---- One term ----

  /** The term and, for a quoted triple, its components at every depth. */
  function Parts(t: Term): set<Term> {
    {t} + if t.Triple? then Parts(t.s) + Parts(t.p) + Parts(t.o) else {}
  }

  /** What appending keeps. */
  lemma AppendedSound(v: View, t: Term)
    requires Sound(v) && WellFormed(t) && t !in v.delta
    ensures Sound(Appended(v, t).0)
  {
    var v' := Appended(v, t).0;
    forall r: nat | r < |v'.entries| ensures EntryAt(v'.terms, v'.entries, r) { assert EntryAt(v.terms, v.entries, r); }
    forall u | u in v'.delta ensures DeltaTrue(v', u) { if u != t { assert DeltaTrue(v, u); } }
    forall i: nat | i < |v'.terms| ensures HomeAt(v', i) {
      if i < |v.terms| {
        assert HomeAt(v, i);
        assert Resident(v, i) ==> v.terms[i] != t;
      }
    }
  }

  /** Nothing given before changes; the answer is an id of the term; what is added are
      the term and its components. */
  lemma {:induction false} AfterInternMeaning(v: View, t: Term)
    requires Sound(v) && WellFormed(t)
    ensures var (v', r) := AfterIntern(v, t);
            && Sound(v') && v.terms <= v'.terms && v'.entries == v.entries
            && (r.Ok? ==> r.value < |v'.terms| && v'.terms[r.value] == t)
            && (forall u :: u in v'.terms ==> u in v.terms || u in Parts(t))
    decreases t
  {
    hide Sound;
    if t in v.delta {
      assert DeltaTrue(v, t) by { SoundDelta(v, t); }
    } else if t.Triple? {
      TripleMeaning(v, t);
    } else {
      hide AfterIntern;
      RegularSteps(v, t);
      match Lookup(v.entries, ContentOf(t))
      case Some(id) => FoundIsTerm(v, t);
      case None => AppendedSound(v, t);
    }
  }

  lemma {:induction false} TripleMeaning(v: View, t: Term)
    requires Sound(v) && WellFormed(t) && t.Triple? && t !in v.delta
    ensures var (v', r) := AfterIntern(v, t);
            && Sound(v') && v.terms <= v'.terms && v'.entries == v.entries
            && (r.Ok? ==> r.value < |v'.terms| && v'.terms[r.value] == t)
            && (forall u :: u in v'.terms ==> u in v.terms || u in Parts(t))
    decreases t, 0
  {
    hide Sound, AfterIntern;
    TripleSteps(v, t);
    var (v1, s) := AfterIntern(v, t.s);
    AfterInternMeaning(v, t.s);
    var (v2, p) := AfterIntern(v1, t.p);
    AfterInternMeaning(v1, t.p);
    var (v3, o) := AfterIntern(v2, t.o);
    AfterInternMeaning(v2, t.o);
    if t in v3.delta { SoundDelta(v3, t); } else { AppendedSound(v3, t); }
  }

  lemma SoundDelta(v: View, t: Term)
    requires Sound(v) && t in v.delta
    ensures DeltaTrue(v, t)
  {
  }

  lemma RegularSteps(v: View, t: Term)
    requires !t.Triple? && t !in v.delta
    ensures AfterIntern(v, t) == match Lookup(v.entries, ContentOf(t))
                                 case Some(id) => (v, if id > MAX_TERM_ID then Err else Ok(id))
                                 case None => Appended(v, t)
  {
  }

  lemma FoundIsTerm(v: View, t: Term)
    requires Sound(v) && WellFormed(t) && !t.Triple? && Lookup(v.entries, ContentOf(t)).Some?
    ensures var id := Lookup(v.entries, ContentOf(t)).value; id < |v.terms| && v.terms[id] == t
  {
    LookupSound(v.entries, ContentOf(t));
    var k: nat :| k < |v.entries| && v.entries[k] == Entry(ContentOf(t), Lookup(v.entries, ContentOf(t)).value);
    assert EntryAt(v.terms, v.entries, k);
    ContentIdentifiesTerm(v.terms[v.entries[k].id], t);
  }

  // ---- Uniqueness ----

  lemma HiddenIsCrossed(v: View, t: Term)
    requires Sound(v) && NoCrossingRun(v.entries) && t !in v.delta && (!t.Triple? ==> Lookup(v.entries, ContentOf(t)).None?)
    ensures t !in v.terms
  {
    forall i: nat | i < |v.terms| ensures v.terms[i] != t {
      assert HomeAt(v, i);
      if v.terms[i] == t {
        var r: nat :| r < |v.entries| && v.entries[r].id == i;
        assert EntryAt(v.terms, v.entries, r);
        LookupFinds(v.entries, r);
      }
    }
  }

  /** While no equal-key run crosses a block boundary, a term gets one id only. */
  lemma {:induction false} AfterInternUnique(v: View, t: Term)
    requires Sound(v) && WellFormed(t) && NoCrossingRun(v.entries) && Unique(v.terms)
    ensures Unique(AfterIntern(v, t).0.terms)
    decreases t
  {
    hide Sound, Unique, NoCrossingRun, AfterIntern;
    if t in v.delta {
      ResidentStep(v, t);
    } else if t.Triple? {
      TripleSteps(v, t);
      var (v1, s) := AfterIntern(v, t.s);
      AfterInternMeaning(v, t.s);
      AfterInternUnique(v, t.s);
      var (v2, p) := AfterIntern(v1, t.p);
      AfterInternMeaning(v1, t.p);
      AfterInternUnique(v1, t.p);
      var (v3, o) := AfterIntern(v2, t.o);
      AfterInternMeaning(v2, t.o);
      AfterInternUnique(v2, t.o);
      if t !in v3.delta { AppendedUnique(v3, t); }
    } else {
      RegularSteps(v, t);
      if Lookup(v.entries, ContentOf(t)).None? { AppendedUnique(v, t); }
    }
  }

  lemma ResidentStep(v: View, t: Term)
    requires t in v.delta
    ensures AfterIntern(v, t) == (v, Ok(v.delta[t]))
  {
  }

  lemma AppendedUnique(v: View, t: Term)
    requires Sound(v) && NoCrossingRun(v.entries) && Unique(v.terms) && t !in v.delta
    requires !t.Triple? ==> Lookup(v.entries, ContentOf(t)).None?
    ensures Unique(Appended(v, t).0.terms)
  {
    HiddenIsCrossed(v, t);
    AppendKeepsUnique(v.terms, t);
  }

  // ---- Interning a known term again ----

  /** Interning again leaves everything as it was, for every known term, if and only if
      no equal-key run crosses a block boundary. */
  lemma ReinternExactIff(v: View)
    requires Sound(v) && Unique(v.terms) && |v.terms| <= MAX_TERM_ID + 1
    ensures NoCrossingRun(v.entries) <==> forall i: nat :: i < |v.terms| ==> AfterIntern(v, v.terms[i]) == (v, Ok(i))
  {
    if NoCrossingRun(v.entries) {
      forall i: nat | i < |v.terms| ensures AfterIntern(v, v.terms[i]) == (v, Ok(i)) { KnownIsFound(v, i); }
    } else {
      var b: nat :| 0 < b < NumBlocks(|v.entries|) && v.entries[Base(b) - 1].content.key == FirstKey(v.entries, b);
      var i := SomeSecondId(v, b);
      assert AfterIntern(v, v.terms[i]) != (v, Ok(i));
    }
  }

  lemma KnownIsFound(v: View, i: nat)
    requires Sound(v) && Unique(v.terms) && |v.terms| <= MAX_TERM_ID + 1 && NoCrossingRun(v.entries) && i < |v.terms|
    ensures AfterIntern(v, v.terms[i]) == (v, Ok(i))
  {
    hide NoCrossingRun, AfterIntern, Lookup;
    var t := v.terms[i];
    assert HomeAt(v, i);
    if t in v.delta {
      ResidentStep(v, t);
      assert DeltaTrue(v, t);
    } else {
      RegularSteps(v, t);
      if Lookup(v.entries, ContentOf(t)).None? { HiddenIsCrossed(v, t); } else { FoundIsTerm(v, t); }
    }
  }

  lemma ContentsAreDistinct(v: View)
    requires Sound(v) && Unique(v.terms)
    ensures DistinctContents(v.entries)
  {
    forall i, j | 0 <= i < j < |v.entries| ensures v.entries[i].content != v.entries[j].content {
      assert EntryAt(v.terms, v.entries, i) && EntryAt(v.terms, v.entries, j);
      if v.entries[i].content == v.entries[j].content { ContentIdentifiesTerm(v.terms[v.entries[i].id], v.terms[v.entries[j].id]); }
    }
  }

  /** The term just before a crossed boundary: interned again it is appended again. */
  lemma SomeSecondId(v: View, b: nat) returns (i: nat)
    requires Sound(v) && Unique(v.terms) && 0 < b < NumBlocks(|v.entries|)
    requires v.entries[Base(b) - 1].content.key == FirstKey(v.entries, b)
    ensures i < |v.terms| && AfterIntern(v, v.terms[i]) == Appended(v, v.terms[i])
  {
    var r: nat := Base(b) - 1;
    i := v.entries[r].id;
    assert EntryAt(v.terms, v.entries, r) && HomeAt(v, i);
    ContentsAreDistinct(v);
    CrossingHidesEntry(v.entries, b);
    var t := v.terms[i];
    assert t in v.delta ==> DeltaTrue(v, t);
    RegularSteps(v, t);
  }

  // ---- A concrete second id ----

  /** What a compaction makes of a view. */
  ghost predicate CompactedTo(before: View, after: View) {
    && after.terms == before.terms && OnlyTriplesStay(before.delta, after.delta)
    && Ordered(after.entries) && Collected(after.terms, after.entries, |after.terms|)
  }

  lemma CompactedSound(before: View, after: View)
    requires Sound(before) && CompactedTo(before, after)
    ensures Sound(after)
  {
    forall t | t in after.delta ensures DeltaTrue(after, t) { assert DeltaTrue(before, t); }
    forall i: nat | i < |after.terms| ensures HomeAt(after, i) {
      assert HomeAt(before, i);
      if HasEntry(after.entries, i) {
        var r: nat :| r < |after.entries| && after.entries[r].id == i;
        assert EntryAt(after.terms, after.entries, r);
      }
    }
  }

  /** Nine literals with one text and nine languages. */
  function Tagged(text: Text, i: nat): Term
    requires i < 9
  {
    Lit(LanguageTagged(text, [97 + i]))
  }

  function TaggedUpTo(text: Text, n: nat): seq<Term>
    requires n <= 9
  {
    if n == 0 then [] else TaggedUpTo(text, n - 1) + [Tagged(text, n - 1)]
  }

  ghost function InternAll(v: View, ts: seq<Term>): View {
    if ts == [] then v else AfterIntern(InternAll(v, ts[..|ts| - 1]), ts[|ts| - 1]).0
  }

  const EMPTY: View := View([], map[], [])

  ghost predicate TaggedView(v: View, text: Text, n: nat) {
    && n <= 9 && |v.terms| == n && v.entries == []
    && (forall i: nat :: i < n ==> v.terms[i] == Tagged(text, i))
    && (forall t :: t in v.delta ==> t in v.terms)
  }

  lemma {:induction false} TaggedInterned(text: Text, n: nat)
    requires n <= 9
    ensures |TaggedUpTo(text, n)| == n && TaggedView(InternAll(EMPTY, TaggedUpTo(text, n)), text, n)
    ensures Sound(InternAll(EMPTY, TaggedUpTo(text, n)))
    decreases n
  {
    if n > 0 {
      var ts := TaggedUpTo(text, n - 1);
      TaggedInterned(text, n - 1);
      assert (ts + [Tagged(text, n - 1)])[..n - 1] == ts;
      var v := InternAll(EMPTY, ts);
      var t := Tagged(text, n - 1);
      RegularSteps(v, t);
      AppendedSound(v, t);
    }
  }

  /** Intern them into an empty dictionary, compact, and intern the first again: it gets
      id 9 although id 0 is still its own. */
  lemma SecondIdAfterCompaction(text: Text, v: View)
    requires CompactedTo(InternAll(EMPTY, TaggedUpTo(text, 9)), v)
    ensures |v.terms| == 9 && v.terms[0] == Tagged(text, 0)
    ensures AfterIntern(v, Tagged(text, 0)) == (View(v.terms + [Tagged(text, 0)], v.delta[Tagged(text, 0) := 9], v.entries), Ok(9))
  {
    var w := InternAll(EMPTY, TaggedUpTo(text, 9));
    TaggedInterned(text, 9);
    CompactedSound(w, v);
    TaggedEntries(text, v);
    var es, t := v.entries, Tagged(text, 0);
    assert EntryAt(v.terms, es, 0) && es[0].content == ContentOf(t);
    assert forall i: nat :: i < 9 ==> es[i].content.key == Key(3, text) by {
      forall i: nat | i < 9 ensures es[i].content.key == Key(3, text) { assert EntryAt(v.terms, es, i); }
    }
    TaggedUnique(text, v);
    ContentsAreDistinct(v);
    EqualTextsCrossABlock(text, es);
    assert t !in v.delta;
    RegularSteps(v, t);
  }

  lemma TaggedUnique(text: Text, v: View)
    requires |v.terms| == 9 && forall i: nat :: i < 9 ==> v.terms[i] == Tagged(text, i)
    ensures Unique(v.terms)
  {
    forall i: nat, j: nat | i < j < 9 ensures v.terms[i] != v.terms[j] {
      assert Tagged(text, i).literal.language[0] != Tagged(text, j).literal.language[0];
    }
  }

  /** Entries of one key come by id, so that rank and id are the same. */
  lemma TaggedEntries(text: Text, v: View)
    requires Ordered(v.entries) && Collected(v.terms, v.entries, 9) && |v.terms| == 9
    requires forall i: nat :: i < 9 ==> v.terms[i] == Tagged(text, i)
    ensures |v.entries| == 9 && forall i: nat :: i < 9 ==> v.entries[i].id == i
  {
    var es := v.entries;
    forall r: nat | r < |es| ensures es[r].content.key == Key(3, text) { assert EntryAt(v.terms, es, r); }
    forall i: nat | i < 9 ensures i < |es| && es[i].id == i { RankIsId(text, v, i); }
    var last := |es| - 1;
    var i: nat := 8;
    assert i < |es| && es[i].id == i;
    assert ByIds(es) && es[last].id < 9;
  }

  lemma {:induction false} RankIsId(text: Text, v: View, i: nat)
    requires Ordered(v.entries) && Collected(v.terms, v.entries, 9) && |v.terms| == 9 && i < 9
    requires forall i: nat :: i < 9 ==> v.terms[i] == Tagged(text, i)
    requires forall r: nat :: r < |v.entries| ==> v.entries[r].content.key == Key(3, text)
    ensures i < |v.entries| && v.entries[i].id == i
    decreases i
  {
    var es := v.entries;
    assert !v.terms[i].Triple? && HasEntry(es, i);
    var r: nat :| r < |es| && es[r].id == i;
    if i > 0 { RankIsId(text, v, i - 1); }
    assert ByIds(es);
  }

  // ---- A concrete abort ----

  /** Intern one IRI, compact, and look up a quoted triple that was never interned. */
  lemma UnknownTripleAborts(iri: Text, v: View)
    requires CompactedTo(AfterIntern(EMPTY, NamedNode(iri)).0, v)
    ensures var node := NamedNode(iri);
            v.terms == [node] && LookedUpIn(v, Term.Triple(node, node, node)).Aborts?
  {
    var node := NamedNode(iri);
    var t := Term.Triple(node, node, node);
    RegularSteps(EMPTY, node);
    var w := AfterIntern(EMPTY, node).0;
    assert w == View([node], map[node := 0], []);
    assert t !in w.delta;
    assert HasEntry(v.entries, 0);
  }
}
