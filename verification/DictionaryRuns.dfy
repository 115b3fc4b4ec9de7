/** Whole runs of the dictionary: any mix of interning, decoding and compacting. */
module DictionaryRuns {
  import opened Options
  import opened FrontCoding
  import opened CompactedTier
  import opened LookupTheory
  import opened Terms
  import opened Dictionaries
  import opened InternTheory

  datatype Request =
    | InternTerm(t: Term)
    | DecodeTerm(id: nat)
    | CompactNow

  /** `Given`: `t` was given, or decoded from, `id`. `Unknown`: nothing has this id yet.
      `Refused`: the id space is exhausted. */
  datatype Answer =
    | Given(id: nat, t: Term)
    | Unknown
    | Refused
    | Compacted

  /** One request and its answer, on the meaning of the dictionary. */
  ghost predicate Answered(before: View, q: Request, a: Answer, after: View) {
    match q
    case InternTerm(t) =>
      var (v, r) := AfterIntern(before, t);
      after == v && a == if r.Ok? then Given(r.value, t) else Refused
    case DecodeTerm(id) =>
      after == before && a == if id < |before.terms| then Given(id, before.terms[id]) else Unknown
    case CompactNow => CompactedTo(before, after) && a == Compacted
  }

  /** `views[i]` is what the dictionary means before request `i` is answered. */
  ghost predicate Run(requests: seq<Request>, answers: seq<Answer>, views: seq<View>) {
    && |answers| <= |requests| && |views| == |answers| + 1
    && forall i: nat :: i < |answers| ==> Answered(views[i], requests[i], answers[i], views[i + 1])
  }

  ghost predicate Proper(requests: seq<Request>) {
    forall q :: q in requests && q.InternTerm? ==> WellFormed(q.t)
  }

  // ---- Runs ----

  lemma StepSound(before: View, q: Request, a: Answer, after: View)
    requires Sound(before) && Answered(before, q, a, after) && (q.InternTerm? ==> WellFormed(q.t))
    ensures Sound(after) && before.terms <= after.terms
    ensures a.Given? ==> a.id < |after.terms| && after.terms[a.id] == a.t
  {
    hide Sound;
    match q
    case InternTerm(t) => AfterInternMeaning(before, t);
    case DecodeTerm(_) =>
    case CompactNow => CompactedSound(before, after);
  }

  /** Term sequences only grow, and every one of them is sound. */
  lemma {:induction false} RunGrows(requests: seq<Request>, answers: seq<Answer>, views: seq<View>, i: nat, j: nat)
    requires Run(requests, answers, views) && Proper(requests) && Sound(views[0]) && i <= j < |views|
    ensures Sound(views[i]) && Sound(views[j]) && views[i].terms <= views[j].terms
    decreases j
  {
    hide Sound, Answered;
    if j > 0 {
      var k: nat := j - 1;
      RunGrows(requests, answers, views, if i < j then i else k, k);
      assert Answered(views[k], requests[k], answers[k], views[k + 1]);
      StepSound(views[k], requests[k], answers[k], views[j]);
    }
  }

  /** An id means one term for ever: every answer of the run agrees with the last view. */
  lemma AnswersStayTrue(requests: seq<Request>, answers: seq<Answer>, views: seq<View>, i: nat)
    requires Run(requests, answers, views) && Proper(requests) && Sound(views[0])
    requires i < |answers| && answers[i].Given?
    ensures var terms := views[|views| - 1].terms; answers[i].id < |terms| && terms[answers[i].id] == answers[i].t
  {
    hide Sound, Answered;
    RunGrows(requests, answers, views, i, i + 1);
    RunGrows(requests, answers, views, i + 1, |views| - 1);
    assert Answered(views[i], requests[i], answers[i], views[i + 1]);
    StepSound(views[i], requests[i], answers[i], views[i + 1]);
  }

  lemma {:induction false} RunStaysUnique(requests: seq<Request>, answers: seq<Answer>, views: seq<View>, n: nat)
    requires Run(requests, answers, views) && Proper(requests) && Sound(views[0]) && Unique(views[0].terms) && n < |views|
    requires forall i :: 0 <= i < n ==> NoCrossingRun(views[i].entries)
    ensures Unique(views[n].terms)
    decreases n
  {
    hide Sound, Unique, NoCrossingRun, AfterIntern;
    if n > 0 {
      var k: nat := n - 1;
      RunStaysUnique(requests, answers, views, k);
      RunGrows(requests, answers, views, 0, k);
      assert Answered(views[k], requests[k], answers[k], views[k + 1]);
      if requests[k].InternTerm? { AfterInternUnique(views[k], requests[k].t); }
    }
  }

  /** Two answers of a run name the same id exactly when they name the same term. */
  ghost predicate OneToOne(answers: seq<Answer>) {
    forall i, j :: 0 <= i < |answers| && 0 <= j < |answers| && answers[i].Given? && answers[j].Given? ==>
      (answers[i].id == answers[j].id <==> answers[i].t == answers[j].t)
  }

  /** While no tier in force has an equal-key run across a block boundary, terms and ids
      correspond one to one over the whole run. */
  lemma NoCrossingMeansOneToOne(requests: seq<Request>, answers: seq<Answer>, views: seq<View>)
    requires Run(requests, answers, views) && Proper(requests) && Sound(views[0]) && Unique(views[0].terms)
    requires forall v :: v in views ==> NoCrossingRun(v.entries)
    ensures OneToOne(answers)
  {
    hide Sound, NoCrossingRun, Answered;
    var last := views[|views| - 1].terms;
    RunStaysUnique(requests, answers, views, |views| - 1);
    forall i | 0 <= i < |answers| && answers[i].Given? ensures answers[i].id < |last| && last[answers[i].id] == answers[i].t {
      AnswersStayTrue(requests, answers, views, i);
    }
  }

  // ---- A condition the caller can check ----

  /** Everything a run may come to know: the terms it starts with and what it interns. */
  ghost function Vocabulary(terms: seq<Term>, requests: seq<Request>): iset<Term> {
    iset t | t in terms || exists q :: q in requests && q.InternTerm? && t in Parts(q.t)
  }

  /** No two regular terms share tag and text. */
  ghost predicate KeysApart(words: iset<Term>) {
    forall a, b :: a in words && b in words && !a.Triple? && !b.Triple? && a != b ==> SortKey(a) != SortKey(b)
  }

  lemma {:induction false} RunStaysInVocabulary(requests: seq<Request>, answers: seq<Answer>, views: seq<View>, n: nat)
    requires Run(requests, answers, views) && Proper(requests) && Sound(views[0]) && n < |views|
    ensures forall t :: t in views[n].terms ==> t in Vocabulary(views[0].terms, requests)
    decreases n
  {
    hide Sound, AfterIntern, Parts;
    if n > 0 {
      var k: nat := n - 1;
      RunStaysInVocabulary(requests, answers, views, k);
      RunGrows(requests, answers, views, 0, k);
      assert Answered(views[k], requests[k], answers[k], views[k + 1]);
      if requests[k].InternTerm? {
        assert requests[k] in requests;
        AfterInternMeaning(views[k], requests[k].t);
      }
    }
  }

  /** Distinct keys never run on across a boundary. */
  lemma KeysApartMeansNoCrossing(v: View, words: iset<Term>)
    requires Sound(v) && Unique(v.terms) && KeysApart(words) && forall t :: t in v.terms ==> t in words
    ensures NoCrossingRun(v.entries)
  {
    var es := v.entries;
    forall b: nat | 0 < b < NumBlocks(|es|) ensures es[Base(b) - 1].content.key != FirstKey(es, b) {
      var q, r: nat := Base(b) - 1, Base(b);
      assert EntryAt(v.terms, es, q) && EntryAt(v.terms, es, r);
      assert v.terms[es[q].id] in words && v.terms[es[r].id] in words;
      assert v.terms[es[q].id] != v.terms[es[r].id];
    }
  }

  lemma {:induction false} KeysApartRun(requests: seq<Request>, answers: seq<Answer>, views: seq<View>, n: nat)
    requires Run(requests, answers, views) && Proper(requests) && Sound(views[0]) && Unique(views[0].terms) && n < |views|
    requires KeysApart(Vocabulary(views[0].terms, requests))
    ensures forall i :: 0 <= i <= n ==> NoCrossingRun(views[i].entries)
    decreases n
  {
    hide Sound, Unique, NoCrossingRun, Answered, KeysApart, Vocabulary;
    if n > 0 { KeysApartRun(requests, answers, views, n - 1); }
    RunStaysUnique(requests, answers, views, n);
    RunGrows(requests, answers, views, 0, n);
    RunStaysInVocabulary(requests, answers, views, n);
    KeysApartMeansNoCrossing(views[n], Vocabulary(views[0].terms, requests));
  }

  /** If no two regular terms among those known and those to be interned share tag and
      text, terms and ids correspond one to one over the whole run. */
  lemma KeysApartMeansOneToOne(requests: seq<Request>, answers: seq<Answer>, views: seq<View>)
    requires Run(requests, answers, views) && Proper(requests) && Sound(views[0]) && Unique(views[0].terms)
    requires KeysApart(Vocabulary(views[0].terms, requests))
    ensures OneToOne(answers)
  {
    hide Sound, Unique, NoCrossingRun, Answered, KeysApart, Vocabulary;
    KeysApartRun(requests, answers, views, |views| - 1);
    NoCrossingMeansOneToOne(requests, answers, views);
  }

  // ---- Serving requests ----

  /** A compaction outgrew the 32-bit offsets of the tier it built. */
  predicate Outgrown(d: Dictionary)
    reads d
  {
    d.compacted.Owned? && !FitsU32(|d.compacted.tier.buf|)
  }

  method ServeOne(d: Dictionary, q: Request) returns (a: Answer)
    requires d.Valid() && (q.InternTerm? ==> WellFormed(q.t))
    modifies d.Cells()
    ensures d.Cells() <= old(d.Cells()) && (d.Valid() || (q.CompactNow? && Outgrown(d)))
    ensures Answered(old(d.ViewOf()), q, a, d.ViewOf()) && (q.CompactNow? ==> a == Compacted)
  {
    hide TierOf, Consistent, GraphNames.TableOf, NoCrossingRun, Unique, AfterIntern;
    match q {
      case InternTerm(t) =>
        var id := d.Intern(t);
        return if id.Ok? then Given(id.value, t) else Refused;
      case DecodeTerm(id) =>
        var t := d.GetTerm(id);
        return if t.Some? then Given(id, t.value) else Unknown;
      case CompactNow =>
        var _ := d.Compact();
        return Compacted;
    }
  }

  lemma RunExtends(requests: seq<Request>, answers: seq<Answer>, views: seq<View>, a: Answer, v: View)
    requires Run(requests, answers, views) && |answers| < |requests|
    requires Answered(views[|views| - 1], requests[|answers|], a, v)
    ensures Run(requests, answers + [a], views + [v])
  {
    hide Answered;
    var answers', views' := answers + [a], views + [v];
    forall i: nat | i < |answers'| ensures Answered(views'[i], requests[i], answers'[i], views'[i + 1]) {
      if i < |answers| { assert Answered(views[i], requests[i], answers[i], views[i + 1]); }
    }
  }

  /** Serves the requests in order. Only a compaction that outgrew its offsets keeps it
      from answering them all. */
  method Serve(d: Dictionary, requests: seq<Request>) returns (answers: seq<Answer>, ghost views: seq<View>)
    requires d.Valid() && Proper(requests)
    modifies d.Cells()
    ensures Run(requests, answers, views) && Sound(views[0])
    ensures views[0] == old(d.ViewOf()) && views[|views| - 1] == d.ViewOf()
    ensures d.Valid() || Outgrown(d)
    ensures |answers| == |requests| || (Outgrown(d) && answers != [] && answers[|answers| - 1] == Compacted)
  {
    hide TierOf, GraphNames.TableOf, Answered, Run, Outgrown, Sound, Consistent;
    answers, views := [], [d.ViewOf()];
    ConsistentIsSound(d.terms, Tables(d.slots, d.toId, d.parts, d.partsId), d.layout.entries, d.HighWater(), d.cache);
    ghost var cells := d.Cells();
    EmptyRun(requests, d.ViewOf());
    for i := 0 to |requests|
      invariant |answers| == i && d.Cells() <= cells
      invariant d.Valid() || (i > 0 && Outgrown(d) && requests[i - 1].CompactNow?)
      invariant i > 0 && requests[i - 1].CompactNow? ==> answers[i - 1] == Compacted
      invariant Run(requests, answers, views) && |views| == i + 1
      invariant views[0] == old(d.ViewOf()) && views[i] == d.ViewOf()
    {
      if i > 0 && requests[i - 1].CompactNow? && Outgrown(d) { return; }
      var a := ServeOne(d, requests[i]);
      RunExtends(requests, answers, views, a, d.ViewOf());
      answers, views := answers + [a], views + [d.ViewOf()];
    }
  }

  lemma EmptyRun(requests: seq<Request>, v: View)
    ensures Run(requests, [], [v])
  {
  }
}
