/** `ace_sim_activities`: the whole simulation, its closing statistics, and when its closing assertions hold. */
module SimActivities {
  import opened AceInfo
  import opened Network
  import opened Sim
  import opened SimLatches
  import opened SimCounters
  import opened Traces

  // ---------------------------------------------------------------- the closing assertions

  /** The four range assertions on one object after `cycles` cycles. */
  predicate EndChecks(a: Activity, cycles: nat)
    requires cycles > 0
  {
    var staticProb, switchProb := a.numOnes as real / cycles as real, a.numToggles as real / cycles as real;
    && 0.0 <= staticProb <= 1.0 && 0.0 <= switchProb <= 1.0
    && switchProb - EPSILON <= 2.0 * (1.0 - staticProb)
    && switchProb - EPSILON <= 2.0 * staticProb
  }

  lemma RatioCompare(x: real, y: real, c: real)
    requires c > 0.0
    ensures x / c <= y <==> x <= y * c
    ensures 0.0 <= x / c <==> 0.0 <= x
  {
    var q := x / c;
    assert q * c == x;
    assert q <= y ==> 0.0 <= (y - q) * c;
    assert q > y ==> 0.0 < (q - y) * c;
    assert q < 0.0 ==> q * c < 0.0;
    assert q >= 0.0 ==> q * c >= 0.0;
  }

  /** The assertions on the integer counters. */
  predicate CountChecks(a: Activity, cycles: nat) {
    && 0 <= a.numOnes <= cycles && 0 <= a.numToggles <= cycles
    && (a.numToggles - 2 * (cycles - a.numOnes)) as real <= EPSILON * cycles as real
    && (a.numToggles - 2 * a.numOnes) as real <= EPSILON * cycles as real
  }

  lemma FractionGap(x: real, m: real, k: real, c: real)
    requires c > 0.0
    ensures x / c - EPSILON <= k + 2.0 * (m / c) <==> x - k * c - 2.0 * m <= EPSILON * c
  {
    var p := m / c;
    RatioCompare(x, k + 2.0 * p + EPSILON, c);
    assert p * c == m;
    assert (k + 2.0 * p + EPSILON) * c == k * c + 2.0 * (p * c) + EPSILON * c;
  }

  lemma FallingGap(x: real, m: real, c: real)
    requires c > 0.0
    ensures x / c - EPSILON <= 2.0 * (1.0 - m / c) <==> x - 2.0 * (c - m) <= EPSILON * c
  {
    FractionGap(x, -m, 2.0, c);
    assert (-m) / c == -(m / c) by {
      assert (m / c) * c == m;
      assert ((-m) / c) * c == -m;
      RatioCompare(-m, -(m / c), c);
      RatioCompare(m, -((-m) / c), c);
    }
  }

  lemma EndChecksOnCounts(a: Activity, cycles: nat)
    requires cycles > 0
    ensures EndChecks(a, cycles) == CountChecks(a, cycles)
  {
    var c, ones, toggles := cycles as real, a.numOnes as real, a.numToggles as real;
    RatioCompare(ones, 1.0, c);
    RatioCompare(toggles, 1.0, c);
    FallingGap(toggles, ones, c);
    FractionGap(toggles, ones, 0.0, c);
  }

  /** An input stream that starts and ends with 1 and never holds 0 for two cycles. */
  ghost predicate ZerosIsolated(s: seq<int>) {
    s != [] && s[0] == 1 && s[|s| - 1] == 1 && !HasDoubleZero(s)
  }

  /** Fewer cycles than EPSILON can hide one toggle in. */
  predicate ShortRun(cycles: nat) {
    cycles < 100000
  }

  /** Toggles within both bounds, without any tolerance. */
  predicate Even(a: Activity, cycles: nat) {
    && 0 <= a.numOnes <= cycles && 0 <= a.numToggles <= cycles
    && a.numToggles <= 2 * (cycles - a.numOnes) && a.numToggles <= 2 * a.numOnes
  }

  /** One toggle more than two for every zero. */
  predicate Odd(a: Activity, cycles: nat) {
    0 <= a.numOnes <= cycles && a.numToggles == 2 * (cycles - a.numOnes) + 1 <= cycles
  }

  lemma EvenPasses(a: Activity, cycles: nat)
    requires Even(a, cycles)
    ensures CountChecks(a, cycles)
  {
  }

  /** The tolerance covers the one toggle too many only in longer runs. */
  lemma OddPasses(a: Activity, cycles: nat)
    requires Odd(a, cycles)
    ensures CountChecks(a, cycles) == !ShortRun(cycles)
  {
  }

  ghost predicate Balanced(a: Activity, cycles: nat, odd: bool) {
    if odd then Odd(a, cycles) else Even(a, cycles)
  }

  /** Only an input whose zeros are isolated has a toggle too many, because its first 1 was counted as a toggle. */
  lemma StreamShape(k: Kind, a: Activity, s: seq<int>, cycles: nat)
    requires Matches(k, a, s) && |s| == cycles
    ensures Balanced(a, cycles, k == PI && ZerosIsolated(s))
  {
    ChangeBalance(s);
    ChangesBelowLength(s);
    RepeatsMeansDouble(s);
  }

  /** The assertions fail for exactly one family: an input whose zeros are isolated, in a run of fewer than
      1 / EPSILON cycles. */
  lemma EndChecksExactly(k: Kind, a: Activity, s: seq<int>, cycles: nat)
    requires Matches(k, a, s) && |s| == cycles
    ensures CountChecks(a, cycles) == !(k == PI && ShortRun(cycles) && ZerosIsolated(s))
  {
    StreamShape(k, a, s, cycles);
    if k == PI && ZerosIsolated(s) { OddPasses(a, cycles); } else { EvenPasses(a, cycles); }
  }

  /** A record taken over from an earlier cycle is within the bounds. */
  lemma EarlierRecordIsEven(k: Kind, a: Activity, s: seq<int>, cycles: nat)
    requires Matches(k, a, s) && |s| < cycles
    ensures Even(a, cycles)
  {
    ChangeBalance(s);
    ChangesBelowLength(s);
  }

  // ---------------------------------------------------------------- the run as a whole

  /** An input whose stream starts and ends with 1 and has isolated zeros. */
  ghost predicate Isolated(n: Net, cfg: seq<Info>, draw: (nat, nat) -> real, cycles: nat, o: nat)
    requires |cfg| == n.Size() && o < n.Size()
  {
    n.kind[o] == PI && ZerosIsolated(SimTrace(n, cfg, draw, cycles, o))
  }

  /** The stream of input `o` makes the closing assertions fail. */
  ghost predicate InputTrips(n: Net, cfg: seq<Info>, draw: (nat, nat) -> real, cycles: nat, o: nat)
    requires |cfg| == n.Size() && o < n.Size()
  {
    ShortRun(cycles) && Isolated(n, cfg, draw, cycles, o)
  }

  lemma SourceShape(n: Net, cfg: seq<Info>, draw: (nat, nat) -> real, t: nat, o: nat)
    requires |cfg| == n.Size() && o < n.Size() && n.kind[o] in {PI, NODE}
    ensures Balanced(Evaluated(n, cfg, draw, t)[o].sim, t + 1, Isolated(n, cfg, draw, t + 1, o))
  {
    CountersAreExact(n, cfg, draw, t, o);
    StreamShape(n.kind[o], Evaluated(n, cfg, draw, t)[o].sim, SimTrace(n, cfg, draw, t + 1, o), t + 1);
  }

  lemma EarlierSourceIsEven(n: Net, cfg: seq<Info>, draw: (nat, nat) -> real, cycles: nat, i: nat, p: nat)
    requires |cfg| == n.Size() && i + 1 < cycles && p < n.Size() && n.kind[p] in {PI, NODE}
    ensures Even(Evaluated(n, cfg, draw, i)[p].sim, cycles)
  {
    CountersAreExact(n, cfg, draw, i, p);
    EarlierRecordIsEven(n.kind[p], Evaluated(n, cfg, draw, i)[p].sim, SimTrace(n, cfg, draw, i + 1, p), cycles);
  }

  lemma {:induction false} OutputsEvenInStream(n: Net, act: (nat, nat) -> Activity, cycles: nat, t: nat, o: nat)
    requires Follows(n, act) && t < cycles && o < n.Size() && n.kind[o] == BO
    requires forall i: nat, p: nat | i + 1 < cycles && p < n.Size() && IsSignal(n.kind[p]) && n.kind[p] != BO ::
               Even(act(i, p), cycles)
    ensures Even(act(t, o), cycles)
    decreases t
  {
    assert FirstAt(n, act, o);
    if t > 0 {
      assert FollowsAt(n, act, t - 1, o);
      var r := Source(n, LatchOf(n, o));
      if n.kind[r] == BO {
        OutputsEvenInStream(n, act, cycles, t - 1, r);
      }
    }
  }

  /** The record at a latch output is one of an earlier cycle. */
  lemma OutputIsEven(n: Net, cfg: seq<Info>, draw: (nat, nat) -> real, cycles: nat, t: nat, o: nat)
    requires |cfg| == n.Size() && t < cycles && o < n.Size() && n.kind[o] == BO
    ensures Even(Evaluated(n, cfg, draw, t)[o].sim, cycles)
  {
    var act := Records(n, cfg, draw);
    RunFollows(n, cfg, draw);
    forall i: nat, p: nat | i + 1 < cycles && p < n.Size() && IsSignal(n.kind[p]) && n.kind[p] != BO
      ensures Even(act(i, p), cycles)
    {
      EarlierSourceIsEven(n, cfg, draw, cycles, i, p);
    }
    OutputsEvenInStream(n, act, cycles, t, o);
  }

  /** A latch's objects end with the record that its source has in the last cycle. */
  lemma LatchRecord(n: Net, cfg: seq<Info>, draw: (nat, nat) -> real, t: nat, k: nat, o: nat)
    requires |cfg| == n.Size() && k < |n.latches| && o < n.Size() && Owns(n, k, o)
    ensures Run(n, cfg, draw, t + 1)[o].sim == Evaluated(n, cfg, draw, t)[Source(n, k)].sim
  {
    LatchShowsSource(n, Evaluated(n, cfg, draw, t), k, o);
  }

  lemma LatchShape(n: Net, cfg: seq<Info>, draw: (nat, nat) -> real, t: nat, k: nat, o: nat)
    requires |cfg| == n.Size() && k < |n.latches| && o < n.Size() && Owns(n, k, o)
    ensures Balanced(Run(n, cfg, draw, t + 1)[o].sim, t + 1, Isolated(n, cfg, draw, t + 1, Source(n, k)))
  {
    LatchRecord(n, cfg, draw, t, k, o);
    if n.kind[Source(n, k)] == BO {
      OutputIsEven(n, cfg, draw, t + 1, t, Source(n, k));
    } else {
      SourceShape(n, cfg, draw, t, Source(n, k));
    }
  }

  /** An object that is neither evaluated nor part of a latch. */
  ghost predicate Idle(n: Net, o: nat)
    requires o < n.Size()
  {
    n.kind[o] !in {PI, NODE} && forall k: nat | k < |n.latches| :: !Owns(n, k, o)
  }

  lemma IdleCounts(n: Net, cfg: seq<Info>, draw: (nat, nat) -> real, t: nat, o: nat)
    requires |cfg| == n.Size() && o < n.Size() && Idle(n, o)
    ensures Run(n, cfg, draw, t)[o].sim.numOnes == 0 == Run(n, cfg, draw, t)[o].sim.numToggles
  {
    var inv := (i: nat, s: seq<Info>) => |s| == n.Size() && s[o].sim.numOnes == 0 == s[o].sim.numToggles;
    forall i: nat, s: seq<Info> | |s| == n.Size() && inv(i, s) ensures inv(i + 1, Cycle(n, s, i, draw)) {
      NodeUntouched(n, PiStage(n, s, i, draw), |n.dfs|, o);
      NotYetMoved(n, NodeStage(n, PiStage(n, s, i, draw), |n.dfs|), |n.latches|, o);
    }
    RunInduction(n, cfg, draw, t, inv);
  }

  lemma SourceAtEnd(n: Net, cfg: seq<Info>, draw: (nat, nat) -> real, t: nat, o: nat)
    requires |cfg| == n.Size() && o < n.Size() && n.kind[o] in {PI, NODE}
    ensures Balanced(Run(n, cfg, draw, t + 1)[o].sim, t + 1, Isolated(n, cfg, draw, t + 1, o))
  {
    CarriedOver(n, cfg, draw, t, o);
    SourceShape(n, cfg, draw, t, o);
  }

  /** What the final record of any object looks like: in every network it has a toggle too many exactly if it comes
      from an input with isolated zeros, directly or through the last move of the latches. */
  lemma RecordShape(n: Net, cfg: seq<Info>, draw: (nat, nat) -> real, t: nat, o: nat)
    requires |cfg| == n.Size() && o < n.Size()
    ensures Balanced(Run(n, cfg, draw, t + 1)[o].sim, t + 1, Isolated(n, cfg, draw, t + 1, Origin(n, o)))
  {
    if k: nat :| k < |n.latches| && Owns(n, k, o) {
      OriginOfLatch(n, k, o);
      LatchShape(n, cfg, draw, t, k, o);
    } else {
      OriginOfOther(n, o);
      if n.kind[o] in {PI, NODE} {
        SourceAtEnd(n, cfg, draw, t, o);
      } else {
        IdleCounts(n, cfg, draw, t + 1, o);
      }
    }
  }

  lemma ShapeDecides(a: Activity, cycles: nat, odd: bool)
    requires cycles > 0 && Balanced(a, cycles, odd)
    ensures EndChecks(a, cycles) == !(ShortRun(cycles) && odd)
  {
    EndChecksOnCounts(a, cycles);
    if odd { OddPasses(a, cycles); } else { EvenPasses(a, cycles); }
  }

  /** Object by object, in every network: the closing assertions fail exactly on tripping inputs and on the three
      objects of each latch whose source is one.  Logic nodes and outputs always pass. */
  lemma ObjectPassesExactly(n: Net, cfg: seq<Info>, draw: (nat, nat) -> real, cycles: nat, o: nat)
    requires |cfg| == n.Size() && o < n.Size() && cycles > 0
    ensures EndChecks(Run(n, cfg, draw, cycles)[o].sim, cycles) == !InputTrips(n, cfg, draw, cycles, Origin(n, o))
  {
    var a, odd := Run(n, cfg, draw, cycles)[o].sim, Isolated(n, cfg, draw, cycles, Origin(n, o));
    assert Balanced(a, cycles, odd) by {
      RecordShape(n, cfg, draw, cycles - 1, o);
    }
    ShapeDecides(a, cycles, odd);
  }

  ghost predicate NoInputTrips(n: Net, cfg: seq<Info>, draw: (nat, nat) -> real, cycles: nat)
    requires |cfg| == n.Size()
  {
    forall o: nat | o < n.Size() :: !InputTrips(n, cfg, draw, cycles, o)
  }

  lemma TrippingInputFails(n: Net, cfg: seq<Info>, draw: (nat, nat) -> real, cycles: nat, o: nat)
    requires |cfg| == n.Size() && o < n.Size() && cycles > 0 && InputTrips(n, cfg, draw, cycles, o)
    ensures !EndChecks(Run(n, cfg, draw, cycles)[o].sim, cycles)
  {
    OriginOfOther(n, o);
    ObjectPassesExactly(n, cfg, draw, cycles, o);
  }

  /** In every network the simulation passes its closing assertions exactly when no input stream trips them. */
  lemma SimulationPassesExactly(n: Net, cfg: seq<Info>, draw: (nat, nat) -> real, cycles: nat)
    requires |cfg| == n.Size() && cycles > 0
    ensures (forall o: nat | o < n.Size() :: EndChecks(Run(n, cfg, draw, cycles)[o].sim, cycles))
            == NoInputTrips(n, cfg, draw, cycles)
  {
    if NoInputTrips(n, cfg, draw, cycles) {
      forall o: nat | o < n.Size() ensures EndChecks(Run(n, cfg, draw, cycles)[o].sim, cycles) {
        ObjectPassesExactly(n, cfg, draw, cycles, o);
      }
    } else {
      var o: nat :| o < n.Size() && InputTrips(n, cfg, draw, cycles, o);
      TrippingInputFails(n, cfg, draw, cycles, o);
    }
  }

  // ---------------------------------------------------------------- the procedure

  ghost function Averaged(i: Info, cycles: nat): Info
    requires cycles > 0
  {
    i.(staticProb := i.sim.numOnes as real / cycles as real,
       switchProb := i.sim.numToggles as real / cycles as real,
       sim := i.sim.(status := SIM))
  }

  /** Only the activity changes during a run, and it stays in its range. */
  ghost predicate Steady(n: Net, cfg: seq<Info>, s: seq<Info>)
    requires |cfg| == n.Size()
  {
    && |s| == n.Size()
    && forall o: nat | o < n.Size() :: s[o].(sim := cfg[o].sim) == cfg[o] && s[o].sim.status != SIM
  }

  lemma InputsSteady(n: Net, cfg: seq<Info>, s: seq<Info>, t: nat, draw: (nat, nat) -> real)
    requires |cfg| == n.Size() && Steady(n, cfg, s)
    ensures Steady(n, cfg, PiStage(n, s, t, draw))
  {
    forall o: nat | o < n.Size() ensures PiStep(s[o], t, draw(t, o)).status != SIM {
    }
  }

  lemma {:induction false} NodesSteady(n: Net, cfg: seq<Info>, s: seq<Info>, k: nat)
    requires |cfg| == n.Size() && Steady(n, cfg, s) && k <= |n.dfs|
    ensures Steady(n, cfg, NodeStage(n, s, k))
  {
    if k > 0 {
      NodesSteady(n, cfg, s, k - 1);
      assert Local(n, n.dfs[k - 1]);
    }
  }

  lemma {:induction false} LatchesSteady(n: Net, cfg: seq<Info>, s: seq<Info>, k: nat)
    requires |cfg| == n.Size() && Steady(n, cfg, s) && k <= |n.latches|
    ensures Steady(n, cfg, LatchStage(n, s, k))
  {
    if k > 0 {
      LatchesSteady(n, cfg, s, k - 1);
      assert LatchWired(n, n.latches[k - 1]);
    }
  }

  lemma CycleSteady(n: Net, cfg: seq<Info>, s: seq<Info>, t: nat, draw: (nat, nat) -> real)
    requires |cfg| == n.Size() && Steady(n, cfg, s)
    ensures Steady(n, cfg, Cycle(n, s, t, draw))
  {
    InputsSteady(n, cfg, s, t, draw);
    NodesSteady(n, cfg, PiStage(n, s, t, draw), |n.dfs|);
    LatchesSteady(n, cfg, NodeStage(n, PiStage(n, s, t, draw), |n.dfs|), |n.latches|);
  }

  lemma RunSteady(n: Net, cfg: seq<Info>, draw: (nat, nat) -> real, t: nat)
    requires |cfg| == n.Size()
    ensures Steady(n, cfg, Run(n, cfg, draw, t))
  {
    var inv := (i: nat, s: seq<Info>) => Steady(n, cfg, s);
    forall i: nat, s: seq<Info> | |s| == n.Size() && inv(i, s) ensures inv(i + 1, Cycle(n, s, i, draw)) {
      CycleSteady(n, cfg, s, i, draw);
    }
    RunInduction(n, cfg, draw, t, inv);
  }

  datatype Outcome =
    | Passed
    | Failed        // a closing assertion aborts
    | OutOfBounds   // the simulation reads past the end of an input vector

  /** Simulates `maxCycles` cycles, then averages the counters.  The third argument of the original, a threshold, is
      only checked to be positive. */
  method AceSimActivities(n: Net, info: array<Info>, maxCycles: nat, draw: (nat, nat) -> real)
    returns (outcome: Outcome)
    requires info.Length == n.Size() && maxCycles > 0
    modifies info
    ensures outcome == OutOfBounds <==> !VectorsCover(n, old(info[..]), maxCycles)
    ensures outcome == Passed <==>
              VectorsCover(n, old(info[..]), maxCycles) && NoInputTrips(n, old(info[..]), draw, maxCycles)
    ensures outcome == Passed ==> info[..] == Simulated(n, old(info[..]), draw, maxCycles)
  {
    ResetAll(n, info);
    var covered := RunCycles(n, info, maxCycles, draw, old(info[..]));
    if !covered {
      return OutOfBounds;
    }
    SimulationPassesExactly(n, old(info[..]), draw, maxCycles);
    var ok := CloseRun(n, info, maxCycles);
    return if ok then Passed else Failed;
  }

  /** The records that a simulation leaves. */
  ghost function Simulated(n: Net, cfg: seq<Info>, draw: (nat, nat) -> real, cycles: nat): (s: seq<Info>)
    requires |cfg| == n.Size() && cycles > 0
    ensures |s| == n.Size()
  {
    seq(n.Size(), o requires 0 <= o < n.Size() => Averaged(Run(n, cfg, draw, cycles)[o], cycles))
  }

  lemma SameVectors(n: Net, cfg: seq<Info>, s: seq<Info>, cycles: nat)
    requires |cfg| == n.Size() && Steady(n, cfg, s)
    ensures VectorsCover(n, s, cycles) == VectorsCover(n, cfg, cycles)
  {
    forall o: nat | o < n.Size() ensures s[o].values == cfg[o].values {
      assert s[o].(sim := cfg[o].sim) == cfg[o];
    }
  }

  method RunCycles(n: Net, info: array<Info>, maxCycles: nat, draw: (nat, nat) -> real, ghost cfg: seq<Info>)
    returns (ok: bool)
    requires info.Length == |cfg| == n.Size() && info[..] == Reset(n, cfg) && Steady(n, cfg, info[..])
    modifies info
    ensures ok == VectorsCover(n, cfg, maxCycles)
    ensures ok ==> info[..] == Run(n, cfg, draw, maxCycles)
  {
    for i := 0 to maxCycles
      invariant info[..] == Run(n, cfg, draw, i) && Steady(n, cfg, info[..]) && VectorsCover(n, cfg, i)
    {
      RunReady(n, cfg, draw, i);
      var covered := SimulateCycle(n, info, i, draw, cfg);
      if !covered {
        return false;
      }
    }
    return true;
  }

  method ResetAll(n: Net, info: array<Info>)
    requires info.Length == n.Size()
    modifies info
    ensures info[..] == Reset(n, old(info[..])) && Steady(n, old(info[..]), info[..])
  {
    for o := 0 to info.Length
      invariant forall j | 0 <= j < o :: info[j] == ResetInfo(n.kind[j], old(info[..])[j])
      invariant forall j | o <= j < info.Length :: info[j] == old(info[..])[j]
    {
      info[o] := info[o].(sim := Activity(if n.kind[o] == BO then NEW else UNDEF, 0, 0, 0));
    }
  }

  lemma ReadyInputs(n: Net, s: seq<Info>)
    requires Ready(n, s)
    ensures PiReady(n, s)
  {
    forall o: nat | o < n.Size() && n.kind[o] == PI
      ensures s[o].sim.status != UNDEF ==> s[o].sim.value == 0 || s[o].sim.value == 1
    {
      ReadyAt(n, s, o);
    }
  }

  method SimulateCycle(n: Net, info: array<Info>, i: nat, draw: (nat, nat) -> real, ghost cfg: seq<Info>)
    returns (ok: bool)
    requires info.Length == |cfg| == n.Size() && Ready(n, info[..]) && Steady(n, cfg, info[..])
    modifies info
    ensures ok == VectorsCover(n, cfg, i + 1)
    ensures ok ==> info[..] == Cycle(n, old(info[..]), i, draw) && Steady(n, cfg, info[..])
  {
    ReadyInputs(n, info[..]);
    SameVectors(n, cfg, info[..], i + 1);
    InputsSteady(n, cfg, info[..], i, draw);
    ok := GetPiValues(n, info, i, draw);
    if !ok {
      return;
    }
    NodesSteady(n, cfg, info[..], |n.dfs|);
    EvaluateCircuit(n, info);
    LatchesSteady(n, cfg, info[..], |n.latches|);
    UpdateFFs(n, info);
  }

  method CloseRun(n: Net, info: array<Info>, cycles: nat) returns (ok: bool)
    requires info.Length == n.Size() && cycles > 0
    modifies info
    ensures ok <==> forall o: nat | o < n.Size() :: EndChecks(old(info[..])[o].sim, cycles)
    ensures ok ==> forall o: nat | o < n.Size() :: info[o] == Averaged(old(info[..])[o], cycles)
  {
    for o := 0 to info.Length
      invariant forall j: nat | j < o ::
                EndChecks(old(info[..])[j].sim, cycles) && info[j] == Averaged(old(info[..])[j], cycles)
      invariant forall j: nat | o <= j < info.Length :: info[j] == old(info[..])[j]
    {
      var a := info[o].sim;
      if !EndChecks(a, cycles) {
        assert !EndChecks(old(info[..])[o].sim, cycles);
        return false;
      }
      info[o] := info[o].(staticProb := a.numOnes as real / cycles as real);
      info[o] := info[o].(switchProb := a.numToggles as real / cycles as real);
      info[o] := info[o].(sim := a.(status := SIM));
    }
    return true;
  }
}
