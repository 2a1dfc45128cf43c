/**
 Proof units shared by the preparation thread, which builds and reads a unit's union, and the commit thread, which
 reports targets terminal: for every interleaving, one pass, no read after release, and release at the last target.
 */
module ProofUnits {
  import opened Wrappers

  /** A unit's shared state, and the passes and releases it has seen. */
  datatype Unit = Unit(remaining: int, built: bool, union: Option<string>, passes: nat, releases: nat)

  function Released(u: Unit): Unit { u.(union := None, releases := u.releases + 1) }

  /** One target of the unit is terminal for the first time. */
  function Finished(u: Unit): Unit {
    var left := u.(remaining := u.remaining - 1);
    if left.remaining == 0 then Released(left) else left
  }

  function PassStarted(u: Unit): Unit { if u.built then u else u.(built := true, passes := u.passes + 1) }

  // ---- the objects ----

  class ProofUnit {
    var remaining: int
    var built: bool
    var union: Option<string>
    ghost var passes: nat
    ghost var releases: nat

    constructor (targets: nat)
      ensures Value() == Unit(targets, false, None, 0, 0)
    {
      remaining, built, union, passes, releases := targets, false, None, 0, 0;
    }

    ghost function Value(): Unit
      reads this
    {
      Unit(remaining, built, union, passes, releases)
    }

    method Release()
      modifies this
      ensures Value() == Released(old(Value()))
    {
      union := None;
      releases := releases + 1;
    }

    /** The pass runs once; a pass that fails leaves the unit built without a union. */
    method Build(pass: Option<string>) returns (failed: bool)
      modifies this
      ensures failed <==> !old(built) && pass.None?
      ensures Value() == if old(built) then old(Value()) else if pass.None? then PassStarted(old(Value())) else PassStarted(old(Value())).(union := pass)
    {
      if built {
        return false;
      }
      built := true;
      passes := passes + 1;
      if pass.None? {
        return true;
      }
      union := pass;
      failed := false;
    }
  }

  /** A target's terminal disposition, recorded once however often it is reported; a target may belong to no unit. */
  method TargetDone(i: nat, unitDone: array<bool>, unitOf: seq<ProofUnit?>)
    requires i < unitDone.Length == |unitOf|
    modifies unitDone, unitOf[i]
    ensures unitDone[..] == old(unitDone[..])[i := true]
    ensures unitOf[i] != null ==> unitOf[i].Value() == if old(unitDone[i]) then old(unitOf[i].Value()) else Finished(old(unitOf[i].Value()))
  {
    if unitDone[i] {
      return;
    }
    unitDone[i] := true;
    if unitOf[i] != null {
      unitOf[i].remaining := unitOf[i].remaining - 1;
      if unitOf[i].remaining == 0 {
        unitOf[i].Release();
      }
    }
  }

  // ---- the two threads ----

  datatype Phase = Waiting | Preparing | Ready | Terminal

  /** Where the preparation thread is: between targets, at one, inside its unit's pass, or past it; or failed with its pass. */
  datatype Preparer = Between | Working(i: nat) | Passing(i: nat) | Holding(i: nat) | Failed

  datatype State = State(units: seq<Unit>, done: seq<bool>, phase: seq<Phase>, preparer: Preparer, staleRead: bool)

  datatype Step =
    | Begin(i: nat)             // preparation takes a target
    | StartPass                 // it reaches the proof: the pass starts unless the unit is built
    | EndPass(union: string)    // the pass delivers
    | FailPass                  // the pass fails, and preparation with it
    | ReadUnion                 // the union is narrowed to the target
    | Skip                      // the target is cached, skipped or refused in preparation
    | Deliver                   // its work goes to the windows
    | Commit(i: nat)            // the commit thread commits, refuses or discards it
    | Again(i: nat)             // a terminal target is reported terminal again, by either thread

  predicate WellFormed(s: State, unitOf: seq<Option<nat>>) {
    && |s.done| == |s.phase| == |unitOf|
    && (forall i :: 0 <= i < |unitOf| && unitOf[i].Some? ==> unitOf[i].value < |s.units|)
    && ((s.preparer.Working? || s.preparer.Passing? || s.preparer.Holding?) ==> s.preparer.i < |unitOf|)
  }

  /** The critical section under the unit mutex. */
  function Report(s: State, unitOf: seq<Option<nat>>, i: nat): State
    requires WellFormed(s, unitOf) && i < |unitOf|
  {
    if s.done[i] then s
    else
      var t := s.(done := s.done[i := true]);
      if unitOf[i].None? then t else t.(units := t.units[unitOf[i].value := Finished(t.units[unitOf[i].value])])
  }

  predicate Enabled(s: State, unitOf: seq<Option<nat>>, step: Step)
    requires WellFormed(s, unitOf)
  {
    match step
    case Begin(i) => s.preparer.Between? && i < |unitOf| && s.phase[i] == Waiting
    case StartPass => s.preparer.Working? && unitOf[s.preparer.i].Some?
    case EndPass(_) => s.preparer.Passing? && unitOf[s.preparer.i].Some?
    case FailPass => s.preparer.Passing?
    case ReadUnion => s.preparer.Holding? && unitOf[s.preparer.i].Some?
    case Skip => s.preparer.Working? || s.preparer.Holding?
    case Deliver => s.preparer.Working? || s.preparer.Holding?
    case Commit(i) => i < |unitOf| && s.phase[i] == Ready
    case Again(i) => i < |unitOf| && s.phase[i] == Terminal
  }

  function Next(s: State, unitOf: seq<Option<nat>>, step: Step): State
    requires WellFormed(s, unitOf) && Enabled(s, unitOf, step)
  {
    match step
    case Begin(i) => s.(preparer := Working(i), phase := s.phase[i := Preparing])
    case StartPass =>
      var u := unitOf[s.preparer.i].value;
      if s.units[u].built then s.(preparer := Holding(s.preparer.i))
      else s.(preparer := Passing(s.preparer.i), units := s.units[u := PassStarted(s.units[u])])
    case EndPass(union) =>
      var u := unitOf[s.preparer.i].value;
      s.(preparer := Holding(s.preparer.i), units := s.units[u := s.units[u].(union := Some(union))])
    case FailPass => s.(preparer := Failed)
    case ReadUnion => s.(staleRead := s.staleRead || s.units[unitOf[s.preparer.i].value].union.None?)
    case Skip => Report(s.(preparer := Between, phase := s.phase[s.preparer.i := Terminal]), unitOf, s.preparer.i)
    case Deliver => s.(preparer := Between, phase := s.phase[s.preparer.i := Ready])
    case Commit(i) => Report(s.(phase := s.phase[i := Terminal]), unitOf, i)
    case Again(i) => Report(s, unitOf, i)
  }

  // ---- the invariant ----

  /** How many of the first n targets stand in unit u. */
  function Standing(unitOf: seq<Option<nat>>, done: seq<bool>, u: nat, n: nat): nat
    requires n <= |unitOf| && |done| == |unitOf|
  {
    if n == 0 then 0 else Standing(unitOf, done, u, n - 1) + if unitOf[n - 1] == Some(u) && !done[n - 1] then 1 else 0
  }

  predicate AtWork(s: State, i: nat) { s.preparer == Working(i) || s.preparer == Passing(i) || s.preparer == Holding(i) }

  predicate PassingUnit(s: State, unitOf: seq<Option<nat>>, u: nat)
    requires WellFormed(s, unitOf)
  {
    s.preparer.Passing? && unitOf[s.preparer.i] == Some(u)
  }

  ghost predicate UnitInvariant(s: State, unitOf: seq<Option<nat>>, u: nat)
    requires WellFormed(s, unitOf) && u < |s.units|
  {
    var unit := s.units[u];
    && unit.remaining == Standing(unitOf, s.done, u, |unitOf|)
    && unit.passes == (if unit.built then 1 else 0)
    && unit.releases == (if unit.remaining == 0 then 1 else 0)
    && (PassingUnit(s, unitOf, u) ==> unit.built)
    && (unit.union.Some? ==> unit.remaining > 0)
    && (unit.built && unit.remaining > 0 && !PassingUnit(s, unitOf, u) && s.preparer != Failed ==> unit.union.Some?)
  }

  ghost predicate Invariant(s: State, unitOf: seq<Option<nat>>) {
    && WellFormed(s, unitOf)
    && (forall i :: 0 <= i < |unitOf| && unitOf[i].Some? ==> (s.done[i] <==> s.phase[i] == Terminal))
    && (forall i :: 0 <= i < |unitOf| ==> (s.phase[i] == Preparing ==> AtWork(s, i) || s.preparer == Failed))
    && (forall i :: 0 <= i < |unitOf| && AtWork(s, i) ==> s.phase[i] == Preparing)
    && (forall u :: 0 <= u < |s.units| ==> UnitInvariant(s, unitOf, u))
    && (s.preparer.Holding? && unitOf[s.preparer.i].Some? ==> s.units[unitOf[s.preparer.i].value].built)
    && !s.staleRead
  }

  lemma {:induction false} StandingDone(unitOf: seq<Option<nat>>, done: seq<bool>, i: nat, u: nat, n: nat)
    requires n <= |unitOf| && |done| == |unitOf| && i < |unitOf| && !done[i]
    ensures Standing(unitOf, done[i := true], u, n) == Standing(unitOf, done, u, n) - if i < n && unitOf[i] == Some(u) then 1 else 0
  {
    if n > 0 {
      StandingDone(unitOf, done, i, u, n - 1);
    }
  }

  lemma {:induction false} StandingPositive(unitOf: seq<Option<nat>>, done: seq<bool>, i: nat, u: nat, n: nat)
    requires i < n <= |unitOf| && |done| == |unitOf| && unitOf[i] == Some(u) && !done[i]
    ensures Standing(unitOf, done, u, n) > 0
  {
    if i < n - 1 {
      StandingPositive(unitOf, done, i, u, n - 1);
    }
  }

  /** A first terminal report keeps every unit's account. */
  lemma {:induction false} ReportKeeps(s: State, unitOf: seq<Option<nat>>, i: nat, u: nat)
    requires WellFormed(s, unitOf) && i < |unitOf| && u < |s.units| && !AtWork(s, i) && !s.done[i]
    requires UnitInvariant(s, unitOf, u)
    ensures UnitInvariant(Report(s, unitOf, i), unitOf, u)
  {
    StandingDone(unitOf, s.done, i, u, |unitOf|);
    if unitOf[i] == Some(u) {
      StandingPositive(unitOf, s.done, i, u, |unitOf|);
    }
  }

  /** The target the preparation thread is at stands, so its unit is held. */
  lemma {:induction false} AtWorkStands(s: State, unitOf: seq<Option<nat>>, i: nat)
    requires Invariant(s, unitOf) && i < |unitOf| && AtWork(s, i) && unitOf[i].Some?
    ensures s.units[unitOf[i].value].remaining > 0 && s.units[unitOf[i].value].releases == 0
  {
    StandingPositive(unitOf, s.done, i, unitOf[i].value, |unitOf|);
    assert UnitInvariant(s, unitOf, unitOf[i].value);
  }

  lemma {:induction false} ReportInvariant(s: State, unitOf: seq<Option<nat>>, t: State, i: nat)
    requires Invariant(s, unitOf) && i < |unitOf| && s.phase[i] != Waiting
    requires t == s.(preparer := t.preparer, phase := s.phase[i := Terminal])
    requires t.preparer == if AtWork(s, i) then Between else s.preparer
    requires !s.preparer.Passing? || s.preparer.i != i
    ensures Invariant(Report(t, unitOf, i), unitOf)
  {
    var r := Report(t, unitOf, i);
    forall u | 0 <= u < |s.units| ensures UnitInvariant(r, unitOf, u) {
      assert UnitInvariant(s, unitOf, u);
      assert UnitInvariant(t, unitOf, u);
      if !t.done[i] {
        ReportKeeps(t, unitOf, i, u);
      }
    }
  }

  lemma {:induction false} PassInvariant(s: State, unitOf: seq<Option<nat>>, step: Step)
    requires Invariant(s, unitOf) && Enabled(s, unitOf, step) && (step.StartPass? || step.EndPass?)
    ensures Invariant(Next(s, unitOf, step), unitOf)
  {
    var t := Next(s, unitOf, step);
    AtWorkStands(s, unitOf, s.preparer.i);
    assert UnitInvariant(s, unitOf, unitOf[s.preparer.i].value);
    forall u | 0 <= u < |s.units| ensures UnitInvariant(t, unitOf, u) {
      assert UnitInvariant(s, unitOf, u);
    }
  }

  lemma {:induction false} StepInvariant(s: State, unitOf: seq<Option<nat>>, step: Step)
    requires Invariant(s, unitOf) && Enabled(s, unitOf, step)
    ensures Invariant(Next(s, unitOf, step), unitOf)
  {
    var t := Next(s, unitOf, step);
    match step {
      case StartPass => PassInvariant(s, unitOf, step);
      case EndPass(_) => PassInvariant(s, unitOf, step);
      case Skip => ReportInvariant(s, unitOf, s.(preparer := Between, phase := s.phase[s.preparer.i := Terminal]), s.preparer.i);
      case Commit(i) => ReportInvariant(s, unitOf, s.(phase := s.phase[i := Terminal]), i);
      case Again(i) => ReportInvariant(s, unitOf, s.(phase := s.phase[i := Terminal]), i);
        assert s.phase[i := Terminal] == s.phase;
      case ReadUnion =>
        AtWorkStands(s, unitOf, s.preparer.i);
        assert UnitInvariant(s, unitOf, unitOf[s.preparer.i].value);
        assert t == s;
      case _ =>
        forall u | 0 <= u < |s.units| ensures UnitInvariant(t, unitOf, u) {
          assert UnitInvariant(s, unitOf, u);
        }
    }
  }

  // ---- every interleaving ----

  /** Units as preparation begins: each counts its targets; a target outside every unit may already be terminal. */
  ghost predicate Starts(s: State, unitOf: seq<Option<nat>>) {
    && WellFormed(s, unitOf) && s.preparer == Between && !s.staleRead
    && (forall i :: 0 <= i < |unitOf| ==> s.phase[i] == Waiting || (unitOf[i].None? && s.phase[i] == Terminal))
    && (forall i :: 0 <= i < |unitOf| ==> !s.done[i])
    && forall u :: 0 <= u < |s.units| ==> s.units[u] == Unit(Standing(unitOf, s.done, u, |unitOf|), false, None, 0, 0)
                                          && Standing(unitOf, s.done, u, |unitOf|) > 0
  }

  ghost predicate Runs(states: seq<State>, steps: seq<Step>, unitOf: seq<Option<nat>>) {
    && |states| == |steps| + 1 && Starts(states[0], unitOf)
    && (forall k :: 0 <= k < |states| ==> WellFormed(states[k], unitOf))
    && forall k :: 0 <= k < |steps| ==> Enabled(states[k], unitOf, steps[k]) && states[k + 1] == Next(states[k], unitOf, steps[k])
  }

  lemma {:induction false} RunInvariant(states: seq<State>, steps: seq<Step>, unitOf: seq<Option<nat>>)
    requires Runs(states, steps, unitOf)
    ensures Invariant(states[|steps|], unitOf)
  {
    if steps != [] {
      var n := |steps| - 1;
      RunInvariant(states[..n + 1], steps[..n], unitOf);
      StepInvariant(states[n], unitOf, steps[n]);
    }
  }

  /** Every target of the unit is terminal. */
  ghost predicate AllTerminal(s: State, unitOf: seq<Option<nat>>, u: nat)
    requires |s.phase| == |unitOf|
  {
    forall i :: 0 <= i < |unitOf| && unitOf[i] == Some(u) ==> s.phase[i] == Terminal
  }

  lemma {:induction false} NoneStanding(unitOf: seq<Option<nat>>, done: seq<bool>, u: nat, n: nat)
    requires n <= |unitOf| && |done| == |unitOf|
    ensures Standing(unitOf, done, u, n) == 0 <==> forall i :: 0 <= i < n && unitOf[i] == Some(u) ==> done[i]
  {
    if n > 0 {
      NoneStanding(unitOf, done, u, n - 1);
    }
  }

  /**
   For every interleaving of the two threads, at every point: a unit's pass has run at most once, no read of a union
   found it released, and the unit has been released exactly once if its last target is terminal and not at all before.
   */
  lemma {:induction false} UnitsAreSafe(states: seq<State>, steps: seq<Step>, unitOf: seq<Option<nat>>, u: nat)
    requires Runs(states, steps, unitOf) && u < |states[|steps|].units|
    ensures var s := states[|steps|];
            && s.units[u].passes <= 1
            && !s.staleRead
            && s.units[u].releases == (if AllTerminal(s, unitOf, u) then 1 else 0)
            && (AllTerminal(s, unitOf, u) ==> s.units[u].union.None?)
  {
    RunInvariant(states, steps, unitOf);
    var s := states[|steps|];
    assert UnitInvariant(s, unitOf, u);
    NoneStanding(unitOf, s.done, u, |unitOf|);
  }
}
