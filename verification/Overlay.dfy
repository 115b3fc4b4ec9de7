/** The reasoning-overlay cache as interleaved steps: any number of callers of
    `current` and a store whose compaction generation moves underneath them. */
module Overlay {
  import opened Options

  type Caller = nat

  /** The label meaning "never built"; real generations stay below it. */
  const NEVER_BUILT: nat := 0xFFFF_FFFF_FFFF_FFFF

  /** Where a caller of `current` is. `g` is the generation it read first, absent for
      stores that report none. */
  datatype Phase =
    | Idle
    | Began(g: Option<nat>)
    | Reading(g: Option<nat>)
    | Waiting(g: Option<nat>)
    | Locked(g: Option<nat>)
    | Building(g: Option<nat>, base: nat)
    | Stored(g: Option<nat>, built: nat)
    | Returned(g: Option<nat>, built: nat)
    | Failed

  /** `overlay` holds the generation of the store state the cached overlay was built from. */
  datatype State = State(
    reports: bool,
    generation: nat,
    overlay: Option<nat>,
    recorded: nat,
    readers: set<Caller>,
    writer: Option<Caller>,
    callers: map<Caller, Phase>)

  ghost predicate Init(s: State) {
    && s.generation < NEVER_BUILT && s.overlay.None? && s.recorded == NEVER_BUILT
    && s.readers == {} && s.writer.None?
    && forall c :: c in s.callers ==> s.callers[c] == Idle
  }

  predicate IsStale(s: State, g: Option<nat>) {
    g.Some? && g.value != s.recorded
  }

  predicate Usable(s: State, g: Option<nat>) {
    s.overlay.Some? && !IsStale(s, g)
  }

  function Moved(s: State, c: Caller, p: Phase): State { s.(callers := s.callers[c := p]) }

  datatype Step =
    | Compact
    | Begin(c: Caller)
    | AcquireRead(c: Caller)
    | FastCheck(c: Caller)
    | AcquireWrite(c: Caller)
    | SlowCheck(c: Caller)
    | BuildFails(c: Caller)
    | BuildDone(c: Caller, seen: nat)
    | StoreLabel(c: Caller)
    | Finish(c: Caller)

  ghost predicate Enabled(s: State, a: Step) {
    if a.Compact? then s.generation + 1 < NEVER_BUILT
    else a.c in s.callers && var p := s.callers[a.c]; match a
      case Begin(_) => p.Idle?
      case AcquireRead(_) => p.Began? && s.writer.None?
      case FastCheck(_) => p.Reading?
      case AcquireWrite(_) => p.Waiting? && s.writer.None? && s.readers == {}
      case SlowCheck(_) => p.Locked?
      case BuildFails(_) => p.Building?
      case BuildDone(_, seen) => p.Building? && p.base <= seen <= s.generation
      case StoreLabel(_) => p.Stored?
      case Finish(_) => p.Returned? || p.Failed?
  }

  ghost function Apply(s: State, a: Step): State
    requires Enabled(s, a)
  {
    match a
    case Compact => s.(generation := s.generation + 1)
    case Begin(c) => Moved(s, c, Began(if s.reports then Some(s.generation) else None))
    case AcquireRead(c) => Moved(s, c, Reading(s.callers[c].g)).(readers := s.readers + {c})
    case FastCheck(c) =>
      var g := s.callers[c].g;
      Moved(s, c, if Usable(s, g) then Returned(g, s.overlay.value) else Waiting(g)).(readers := s.readers - {c})
    case AcquireWrite(c) => Moved(s, c, Locked(s.callers[c].g)).(writer := Some(c))
    case SlowCheck(c) =>
      var g := s.callers[c].g;
      if Usable(s, g) then Moved(s, c, Returned(g, s.overlay.value)).(writer := None)
      else Moved(s, c, Building(g, s.generation))
    case BuildFails(c) => Moved(s, c, Failed).(writer := None)
    case BuildDone(c, seen) => Moved(s, c, Stored(s.callers[c].g, seen)).(overlay := Some(seen))
    case StoreLabel(c) =>
      var p := s.callers[c];
      Moved(s, c, Returned(p.g, p.built)).(recorded := if p.g.Some? then p.g.value else s.recorded, writer := None)
    case Finish(c) => Moved(s, c, Idle)
  }

  ghost predicate Next(s: State, s': State) {
    exists a :: Enabled(s, a) && s' == Apply(s, a)
  }

  ghost predicate Behavior(run: seq<State>) {
    && |run| > 0 && Init(run[0])
    && forall i :: 0 <= i < |run| - 1 ==> Next(run[i], run[i + 1])
  }

  // ---- Invariant ----

  predicate HoldsWrite(p: Phase) { p.Locked? || p.Building? || p.Stored? }

  ghost predicate LocksConsistent(s: State) {
    && (forall c :: c in s.readers <==> c in s.callers && s.callers[c].Reading?)
    && (forall c :: s.writer == Some(c) <==> c in s.callers && HoldsWrite(s.callers[c]))
    && (s.writer.Some? ==> s.readers == {})
  }

  /** A caller's generation is one the store has reached. */
  ghost predicate PhaseOk(s: State, p: Phase) {
    && (!p.Idle? && !p.Failed? ==> (p.g.Some? <==> s.reports))
    && (!p.Idle? && !p.Failed? && p.g.Some? ==> p.g.value <= s.generation)
    && (p.Building? ==> p.base <= s.generation && (p.g.Some? ==> p.g.value <= p.base)
                        && (s.overlay.Some? ==> s.overlay.value <= p.base)
                        && (!s.reports ==> s.overlay.None?))
    && (p.Stored? ==> s.overlay == Some(p.built) && (p.g.Some? ==> p.g.value <= p.built))
    && (p.Returned? && p.g.Some? ==> p.g.value <= p.built <= s.generation)
  }

  ghost predicate Inv(s: State) {
    && s.generation < NEVER_BUILT
    && LocksConsistent(s)
    && (s.overlay.Some? ==> s.overlay.value <= s.generation)
    && (s.recorded != NEVER_BUILT ==> s.overlay.Some? && s.recorded <= s.overlay.value)
    && (!s.reports ==> s.recorded == NEVER_BUILT)
    && (forall c :: c in s.callers ==> PhaseOk(s, s.callers[c]))
  }

  lemma StepKeepsLocks(s: State, a: Step)
    requires LocksConsistent(s) && Enabled(s, a)
    ensures LocksConsistent(Apply(s, a))
  {
  }

  lemma StepKeepsLabel(s: State, a: Step)
    requires Inv(s) && Enabled(s, a)
    ensures var s' := Apply(s, a);
            && s'.generation < NEVER_BUILT && (s'.overlay.Some? ==> s'.overlay.value <= s'.generation)
            && (s'.recorded != NEVER_BUILT ==> s'.overlay.Some? && s'.recorded <= s'.overlay.value)
            && (!s'.reports ==> s'.recorded == NEVER_BUILT)
  {
    if !a.Compact? { assert PhaseOk(s, s.callers[a.c]); }
  }

  /** The caller that takes the step ends in an admissible phase. */
  lemma StepKeepsOwnPhase(s: State, a: Step)
    requires Inv(s) && Enabled(s, a) && !a.Compact?
    ensures PhaseOk(Apply(s, a), Apply(s, a).callers[a.c])
  {
    assert PhaseOk(s, s.callers[a.c]);
  }

  /** Everyone else stays admissible: only the writer touches what their phase depends on. */
  lemma StepKeepsOtherPhase(s: State, a: Step, d: Caller)
    requires Inv(s) && Enabled(s, a) && d in s.callers && (a.Compact? || d != a.c)
    ensures PhaseOk(Apply(s, a), s.callers[d])
  {
    assert PhaseOk(s, s.callers[d]);
    assert HoldsWrite(s.callers[d]) ==> s.writer == Some(d);
    if !a.Compact? { assert HoldsWrite(s.callers[a.c]) ==> s.writer == Some(a.c); }
  }

  lemma StepKeepsInv(s: State, a: Step)
    requires Inv(s) && Enabled(s, a)
    ensures Inv(Apply(s, a)) && Apply(s, a).reports == s.reports
  {
    StepKeepsLocks(s, a);
    StepKeepsLabel(s, a);
    var s' := Apply(s, a);
    forall d | d in s'.callers ensures PhaseOk(s', s'.callers[d]) {
      if !a.Compact? && d == a.c {
        StepKeepsOwnPhase(s, a);
      } else {
        StepKeepsOtherPhase(s, a, d);
        assert s'.callers[d] == s.callers[d];
      }
    }
  }

  lemma {:induction false} InvAlways(run: seq<State>, i: nat)
    requires Behavior(run) && i < |run|
    ensures Inv(run[i]) && run[i].reports == run[0].reports
    decreases i
  {
    if i > 0 {
      InvAlways(run, i - 1);
      assert Next(run[i - 1], run[i]);
      var a :| Enabled(run[i - 1], a) && run[i] == Apply(run[i - 1], a);
      StepKeepsInv(run[i - 1], a);
    }
  }

  // ---- Results ----

  /** Whatever the interleaving, an overlay handed out was built from a store state at
      least as new as the generation its caller read first. */
  lemma ReturnedOverlayIsFresh(run: seq<State>, i: nat, c: Caller)
    requires Behavior(run) && i < |run| && run[i].reports
    requires c in run[i].callers && run[i].callers[c].Returned?
    ensures var p := run[i].callers[c]; p.g.Some? && p.g.value <= p.built <= run[i].generation
  {
    InvAlways(run, i);
    assert PhaseOk(run[i], run[i].callers[c]);
  }

  /** The recorded label never claims more than the cached overlay holds. */
  lemma LabelNeverOverclaims(run: seq<State>, i: nat)
    requires Behavior(run) && i < |run|
    ensures run[i].recorded == NEVER_BUILT || (run[i].overlay.Some? && run[i].recorded <= run[i].overlay.value)
  {
    InvAlways(run, i);
  }

  /** Rebuilds exclude each other and every reader. */
  lemma WritersAreExclusive(run: seq<State>, i: nat, c: Caller, d: Caller)
    requires Behavior(run) && i < |run| && c in run[i].callers && d in run[i].callers && c != d
    requires HoldsWrite(run[i].callers[c])
    ensures !HoldsWrite(run[i].callers[d]) && !run[i].callers[d].Reading?
  {
    InvAlways(run, i);
  }

  /** The cached overlay only ever moves to newer store states. */
  lemma {:induction false} OverlayMovesForward(run: seq<State>, i: nat, j: nat)
    requires Behavior(run) && i <= j < |run| && run[i].overlay.Some?
    ensures run[j].overlay.Some? && run[i].overlay.value <= run[j].overlay.value
    decreases j
  {
    if i < j {
      OverlayMovesForward(run, i, j - 1);
      InvAlways(run, j - 1);
      assert Next(run[j - 1], run[j]);
      var a :| Enabled(run[j - 1], a) && run[j] == Apply(run[j - 1], a);
      if a.BuildDone? { assert PhaseOk(run[j - 1], run[j - 1].callers[a.c]); }
    }
  }

  /** A store that reports no generation is wrapped once and never again. */
  lemma {:induction false} NoGenerationBuildsOnce(run: seq<State>, i: nat, j: nat)
    requires Behavior(run) && i <= j < |run| && !run[0].reports && run[i].overlay.Some?
    ensures run[j].overlay == run[i].overlay
    decreases j
  {
    if i < j {
      NoGenerationBuildsOnce(run, i, j - 1);
      InvAlways(run, j - 1);
      assert Next(run[j - 1], run[j]);
      var a :| Enabled(run[j - 1], a) && run[j] == Apply(run[j - 1], a);
    }
  }

  predicate OnFastPath(p: Phase) { p.Began? || p.Reading? || p.Returned? }

  lemma ServedStep(s: State, a: Step, c: Caller, g: nat)
    requires Inv(s) && Enabled(s, a) && s.recorded == g != NEVER_BUILT && c in s.callers && OnFastPath(s.callers[c])
    requires InFlight(s.callers[c], Some(g)) && InFlight(Apply(s, a).callers[c], Some(g))
    ensures OnFastPath(Apply(s, a).callers[c])
  {
  }

  /** A call that reads the generation the cached overlay is labelled with, the label
      staying as it is, waits for no lock and builds nothing. */
  lemma {:induction false} LabelledIsServed(run: seq<State>, b: nat, i: nat, c: Caller)
    requires Behavior(run) && InFlightFrom(run, b, i, c)
    requires forall k: nat :: b <= k <= i ==> run[k].recorded == run[b].generation
    ensures OnFastPath(run[i].callers[c])
    decreases i
  {
    hide Apply, Enabled, Inv;
    InvAlways(run, b);
    assert run[b].generation != NEVER_BUILT by { BelowNever(run[b]); }
    if i > b + 1 {
      var n: nat := i - 1;
      LabelledIsServed(run, b, n, c);
      InvAlways(run, n);
      var a := StepBefore(run, i);
      assert InFlight(run[n].callers[c], Some(run[b].generation));
      ServedStep(run[n], a, c, run[b].generation);
    } else {
      BeginsOnFastPath(run, b, c);
    }
  }

  lemma BelowNever(s: State)
    requires Inv(s)
    ensures s.generation != NEVER_BUILT
  {
  }

  lemma BeginsOnFastPath(run: seq<State>, b: nat, c: Caller)
    requires BeginsAt(run, b, c)
    ensures OnFastPath(run[b + 1].callers[c])
  {
  }

  // ---- When the label moves backward ----

  ghost predicate LabelDrops(s: State, s': State) { s.recorded != NEVER_BUILT && s'.recorded < s.recorded }

  /** Step `i` is the labelling by caller `c`. */
  ghost predicate LabelsAt(run: seq<State>, i: nat, c: Caller) {
    && i + 1 < |run| && c in run[i].callers && run[i].callers[c].Stored? && run[i].callers[c].g.Some?
    && run[i + 1] == Apply(run[i], StoreLabel(c))
  }

  /** Step `b` is the beginning of a call by `c`, which reads the generation. */
  ghost predicate BeginsAt(run: seq<State>, b: nat, c: Caller) {
    b + 1 < |run| && run[b].reports && c in run[b].callers && run[b].callers[c].Idle? && run[b + 1] == Apply(run[b], Begin(c))
  }

  ghost predicate InFlight(p: Phase, g: Option<nat>) { !p.Idle? && !p.Failed? && p.g == g }

  ghost predicate InFlightFrom(run: seq<State>, b: nat, i: nat, c: Caller) {
    && BeginsAt(run, b, c) && b < i < |run|
    && forall k: nat :: b < k <= i ==> c in run[k].callers && InFlight(run[k].callers[c], Some(run[b].generation))
  }

  /** Caller `c` began at `b` and is still on its way at `i`; `d` began at `e`, after `c`
      and on a newer generation, and at `j` gave the label that still stands. */
  ghost predicate OvertakenBy(run: seq<State>, c: Caller, d: Caller, b: nat, e: nat, j: nat, i: nat) {
    && c != d && b < e < j < i
    && InFlightFrom(run, b, i, c) && InFlightFrom(run, e, j, d) && LabelsAt(run, j, d)
    && run[b].generation < run[e].generation && forall k: nat :: j < k <= i ==> run[k].recorded == run[e].generation
  }

  lemma {:induction false} GenerationGrows(run: seq<State>, i: nat, j: nat)
    requires Behavior(run) && i <= j < |run|
    ensures run[i].generation <= run[j].generation
    decreases j
  {
    if i < j {
      GenerationGrows(run, i, j - 1);
      assert Next(run[j - 1], run[j]);
    }
  }

  lemma InFlightStep(s: State, a: Step, c: Caller)
    requires s.reports && Enabled(s, a) && c in Apply(s, a).callers
    requires !Apply(s, a).callers[c].Idle? && !Apply(s, a).callers[c].Failed?
    ensures var p := Apply(s, a).callers[c];
            if a == Begin(c) then c in s.callers && s.callers[c].Idle? && p.g == Some(s.generation)
            else c in s.callers && InFlight(s.callers[c], p.g)
  {
  }

  lemma StepBefore(run: seq<State>, i: nat) returns (a: Step)
    requires Behavior(run) && 0 < i < |run|
    ensures Enabled(run[i - 1], a) && run[i] == Apply(run[i - 1], a) && run[i - 1].reports == run[0].reports
  {
    InvAlways(run, i - 1);
    assert Next(run[i - 1], run[i]);
    a :| Enabled(run[i - 1], a) && run[i] == Apply(run[i - 1], a);
  }

  lemma NobodyOnTheWay(run: seq<State>, c: Caller)
    requires Behavior(run) && c in run[0].callers
    ensures run[0].callers[c].Idle?
  {
  }

  /** Whoever is on the way began some time before. */
  lemma {:induction false} BeganBefore(run: seq<State>, i: nat, c: Caller) returns (b: nat)
    requires Behavior(run) && run[0].reports && i < |run| && c in run[i].callers && !run[i].callers[c].Idle? && !run[i].callers[c].Failed?
    ensures InFlightFrom(run, b, i, c) && run[i].callers[c].g == Some(run[b].generation)
    decreases i
  {
    hide Apply, Enabled, Behavior;
    if i == 0 {
      NobodyOnTheWay(run, c);
      assert false;
    }
    var n: nat := i - 1;
    var a := StepBefore(run, i);
    InFlightStep(run[n], a, c);
    if a == Begin(c) { b := n; } else { b := BeganBefore(run, n, c); }
  }

  /** A label was given by somebody and has stood since. */
  lemma {:induction false} LabelledBefore(run: seq<State>, i: nat) returns (j: nat, d: Caller)
    requires Behavior(run) && i < |run| && run[i].recorded != NEVER_BUILT
    ensures j < i && LabelsAt(run, j, d) && run[j].callers[d].g == Some(run[i].recorded)
    ensures forall k: nat :: j < k <= i ==> run[k].recorded == run[i].recorded
    decreases i
  {
    var n: nat := i - 1;
    assert Next(run[n], run[i]);
    var a :| Enabled(run[n], a) && run[i] == Apply(run[n], a);
    if a.StoreLabel? && run[n].callers[a.c].g.Some? { j, d := n, a.c; } else { j, d := LabelledBefore(run, n); }
  }

  lemma DropIsLabelling(run: seq<State>, i: nat) returns (c: Caller)
    requires Behavior(run) && i + 1 < |run| && LabelDrops(run[i], run[i + 1])
    ensures LabelsAt(run, i, c) && run[i].callers[c].g.value < run[i].recorded
  {
    assert Next(run[i], run[i + 1]);
    var a :| Enabled(run[i], a) && run[i + 1] == Apply(run[i], a);
    c := a.c;
  }

  lemma DropMeansOvertaken(run: seq<State>, i: nat) returns (c: Caller, d: Caller, b: nat, e: nat, j: nat)
    requires Behavior(run) && i + 1 < |run| && LabelDrops(run[i], run[i + 1])
    ensures LabelsAt(run, i, c) && OvertakenBy(run, c, d, b, e, j, i)
  {
    hide Apply, Next;
    c := DropIsLabelling(run, i);
    LabelMeansReports(run, i);
    b := BeganBefore(run, i, c);
    j, d := LabelledBefore(run, i);
    e := BeganBefore(run, j, d);
    if e <= b { GenerationGrows(run, e, b); }
  }

  lemma LabelMeansReports(run: seq<State>, i: nat)
    requires Behavior(run) && i < |run| && run[i].recorded != NEVER_BUILT
    ensures run[0].reports
  {
    InvAlways(run, i);
  }

  lemma OvertakenLabelDrops(run: seq<State>, i: nat, c: Caller, d: Caller, b: nat, e: nat, j: nat)
    requires Behavior(run) && LabelsAt(run, i, c) && OvertakenBy(run, c, d, b, e, j, i)
    ensures LabelDrops(run[i], run[i + 1])
  {
    InvAlways(run, e);
    assert run[i].recorded == run[e].generation < NEVER_BUILT;
    assert InFlight(run[i].callers[c], Some(run[b].generation));
  }

  /** The recorded generation moves backward in exactly one kind of step: the labelling by
      a caller that another one, who began later and on a newer generation, overtook. */
  lemma LabelMovesBackwardIff(run: seq<State>, i: nat)
    requires Behavior(run) && i + 1 < |run|
    ensures LabelDrops(run[i], run[i + 1])
            <==> exists c: Caller, d: Caller, b: nat, e: nat, j: nat :: LabelsAt(run, i, c) && OvertakenBy(run, c, d, b, e, j, i)
  {
    hide *;
    if LabelDrops(run[i], run[i + 1]) { var c, d, b, e, j := DropMeansOvertaken(run, i); }
    if c: Caller, d: Caller, b: nat, e: nat, j: nat :| LabelsAt(run, i, c) && OvertakenBy(run, c, d, b, e, j, i) {
      OvertakenLabelDrops(run, i, c, d, b, e, j);
    }
  }

  ghost function TwoCallers(generation: nat, overlay: Option<nat>, recorded: nat, readers: set<Caller>, writer: Option<Caller>,
                            p: Phase, q: Phase): State {
    State(true, generation, overlay, recorded, readers, writer, map[0 := p, 1 := q])
  }

  /** Caller 0 reads generation 0 and stalls; caller 1 reads generation 1, builds and
      labels; then caller 0 wakes up, finds the overlay stale and rebuilds. */
  ghost function Overtaken(i: nat): State {
    var (z, g, h, q, N) := (Began(Some(0)), Some(1), Some(0), Returned(Some(1), 1), NEVER_BUILT);
    match i
    case 0 => TwoCallers(0, None, N, {}, None, Idle, Idle)
    case 1 => TwoCallers(0, None, N, {}, None, z, Idle)
    case 2 => TwoCallers(1, None, N, {}, None, z, Idle)
    case 3 => TwoCallers(1, None, N, {}, None, z, Began(g))
    case 4 => TwoCallers(1, None, N, {1}, None, z, Reading(g))
    case 5 => TwoCallers(1, None, N, {}, None, z, Waiting(g))
    case 6 => TwoCallers(1, None, N, {}, Some(1), z, Locked(g))
    case 7 => TwoCallers(1, None, N, {}, Some(1), z, Building(g, 1))
    case 8 => TwoCallers(1, Some(1), N, {}, Some(1), z, Stored(g, 1))
    case 9 => TwoCallers(1, Some(1), 1, {}, None, z, q)
    case 10 => TwoCallers(1, Some(1), 1, {0}, None, Reading(h), q)
    case 11 => TwoCallers(1, Some(1), 1, {}, None, Waiting(h), q)
    case 12 => TwoCallers(1, Some(1), 1, {}, Some(0), Locked(h), q)
    case 13 => TwoCallers(1, Some(1), 1, {}, Some(0), Building(h, 1), q)
    case 14 => TwoCallers(1, Some(1), 1, {}, Some(0), Stored(h, 1), q)
    case _ => TwoCallers(1, Some(1), 0, {}, None, Returned(h, 1), q)
  }

  ghost function OvertakenStep(i: nat): Step {
    match i
    case 0 => Begin(0)
    case 1 => Compact
    case 2 => Begin(1)
    case 3 => AcquireRead(1)
    case 4 => FastCheck(1)
    case 5 => AcquireWrite(1)
    case 6 => SlowCheck(1)
    case 7 => BuildDone(1, 1)
    case 8 => StoreLabel(1)
    case 9 => AcquireRead(0)
    case 10 => FastCheck(0)
    case 11 => AcquireWrite(0)
    case 12 => SlowCheck(0)
    case 13 => BuildDone(0, 1)
    case _ => StoreLabel(0)
  }

  lemma OvertakenFollows(i: nat)
    requires i < 15
    ensures Next(Overtaken(i), Overtaken(i + 1))
  {
    var a := OvertakenStep(i);
    assert Enabled(Overtaken(i), a);
    assert Apply(Overtaken(i), a) == Overtaken(i + 1);
  }

  /** The recorded label itself can move backward: a caller that read generation 0 and
      was overtaken relabels the overlay a later caller had labelled 1. */
  lemma LabelCanMoveBackward()
    ensures exists run: seq<State> :: Behavior(run) && |run| >= 2 && run[|run| - 1].recorded < run[|run| - 2].recorded < NEVER_BUILT
  {
    var run := seq(16, i requires 0 <= i < 16 => Overtaken(i));
    forall i | 0 <= i < |run| - 1 ensures Next(run[i], run[i + 1]) { OvertakenFollows(i); }
    assert Behavior(run);
  }
}
