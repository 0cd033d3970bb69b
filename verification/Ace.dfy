/** `ace_calc_activity` (ace2/ace.c): simulation, latch probabilities, and the switching activities computed from
    them.  It says exactly when the assertions along the way hold. */
module Ace {
  import opened AceInfo
  import opened Cube
  import opened Bdd
  import opened BddSwitch
  import opened BddCalc
  import opened Network
  import opened Sim
  import opened SimLatches
  import opened SimActivities
  import opened SimCounters
  import opened Traces
  import opened LongRuns
  import opened Cycles
  import opened Depth

  // ---------------------------------------------------------------- latch probabilities

  function FromInput(output: Info, input: Info): Info {
    output.(staticProb := input.staticProb, switchProb := input.switchProb,
      sim := output.sim.(status := input.sim.status))
  }

  /** Every latch output object has taken over the probabilities of its latch's input object. */
  ghost function LatchProbs(n: Net, s: seq<Info>): (t: seq<Info>)
    requires |s| == n.Size()
    ensures |t| == |s|
  {
    seq(|s|, o requires 0 <= o < |s| =>
      if n.kind[o] == BO then
        assert LatchWired(n, n.latches[LatchOf(n, o)]); FromInput(s[o], s[n.latches[LatchOf(n, o)].input])
      else s[o])
  }

  /** The records after the first `k` latches. */
  ghost predicate LatchesCopied(n: Net, s: seq<Info>, t: seq<Info>, k: nat)
    requires |s| == |t| == n.Size() && k <= |n.latches|
  {
    && (forall j: nat | j < |n.latches| :: LatchWired(n, n.latches[j]))
    && (forall j: nat | j < |n.latches| ::
          var l := n.latches[j]; t[l.output] == if j < k then FromInput(s[l.output], s[l.input]) else s[l.output])
    && (forall o: nat | o < n.Size() && n.kind[o] != BO :: t[o] == s[o])
  }

  lemma LatchCopied(n: Net, s: seq<Info>, t: seq<Info>, k: nat)
    requires |s| == |t| == n.Size() && k < |n.latches| && LatchesCopied(n, s, t, k)
    ensures LatchWired(n, n.latches[k])
    ensures var l := n.latches[k]; LatchesCopied(n, s, t[l.output := FromInput(t[l.output], t[l.input])], k + 1)
  {
  }

  lemma AllCopied(n: Net, s: seq<Info>, t: seq<Info>)
    requires |s| == |t| == n.Size() && LatchesCopied(n, s, t, |n.latches|)
    ensures t == LatchProbs(n, s)
  {
  }

  method AceUpdateLatchProbs(n: Net, info: array<Info>)
    requires info.Length == n.Size()
    modifies info
    ensures info[..] == LatchProbs(n, old(info[..]))
    ensures forall k: nat | k < |n.latches| ::
              var l := n.latches[k];
              && l.input < n.Size() && l.output < n.Size()
              && info[l.output].staticProb == old(info[..])[l.input].staticProb
              && info[l.output].switchProb == old(info[..])[l.input].switchProb
              && info[l.output].sim.status == old(info[..])[l.input].sim.status
  {
    for k := 0 to |n.latches|
      invariant LatchesCopied(n, old(info[..]), info[..], k)
    {
      LatchCopied(n, old(info[..]), info[..], k);
      var l := n.latches[k];
      ghost var was := info[..];
      info[l.output] := FromInput(info[l.output], info[l.input]);
      assert info[..] == was[l.output := FromInput(was[l.output], was[l.input])];
    }
    AllCopied(n, old(info[..]), info[..]);
  }

  /** After a simulation of at least one cycle there is nothing to take over. */
  lemma UpdateChangesNothing(n: Net, cfg: seq<Info>, draw: (nat, nat) -> real, cycles: nat)
    requires |cfg| == n.Size() && cycles > 0
    ensures LatchProbs(n, Simulated(n, cfg, draw, cycles)) == Simulated(n, cfg, draw, cycles)
  {
    var s := Simulated(n, cfg, draw, cycles);
    forall o: nat | o < n.Size() && n.kind[o] == BO ensures LatchProbs(n, s)[o] == s[o] {
      var j := LatchOf(n, o);
      assert LatchWired(n, n.latches[j]);
      LatchObjectsAgree(n, Evaluated(n, cfg, draw, cycles - 1), j);
    }
  }

  // ---------------------------------------------------------------- ranges

  ghost predicate AllInRange(s: seq<Info>) {
    forall o: nat | o < |s| :: 0.0 <= s[o].staticProb <= 1.0 && 0.0 <= s[o].switchProb
  }

  /** Every object has probabilities that some stationary signal has. */
  ghost predicate AllConsistent(s: seq<Info>) {
    forall o: nat | o < |s| :: Consistent(s[o].staticProb, s[o].switchProb)
  }

  lemma SimulatedIsInRange(n: Net, cfg: seq<Info>, draw: (nat, nat) -> real, cycles: nat)
    requires |cfg| == n.Size() && 0 < cycles && NoInputTrips(n, cfg, draw, cycles)
    ensures AllInRange(Simulated(n, cfg, draw, cycles))
  {
    forall o: nat | o < n.Size()
      ensures var i := Simulated(n, cfg, draw, cycles)[o]; 0.0 <= i.staticProb <= 1.0 && 0.0 <= i.switchProb
    {
      ObjectPassesExactly(n, cfg, draw, cycles, o);
    }
  }

  lemma ShortObjectIsConsistent(n: Net, cfg: seq<Info>, draw: (nat, nat) -> real, t: nat, o: nat)
    requires |cfg| == n.Size() && o < n.Size() && ShortRun(t + 1) && NoInputTrips(n, cfg, draw, t + 1)
    ensures var i := Averaged(Run(n, cfg, draw, t + 1)[o], t + 1); Consistent(i.staticProb, i.switchProb)
  {
    assert !InputTrips(n, cfg, draw, t + 1, Origin(n, o));
    RecordShape(n, cfg, draw, t, o);
    EvenIsConsistent(Run(n, cfg, draw, t + 1)[o].sim, t + 1);
  }

  /** In a run shorter than 1 / EPSILON, such as the 5000 vectors of the program, the tolerance hides nothing. */
  lemma ShortRunsAreConsistent(n: Net, cfg: seq<Info>, draw: (nat, nat) -> real, cycles: nat)
    requires |cfg| == n.Size() && 0 < cycles && ShortRun(cycles) && NoInputTrips(n, cfg, draw, cycles)
    ensures AllConsistent(Simulated(n, cfg, draw, cycles))
  {
    forall o: nat | o < n.Size()
      ensures var i := Simulated(n, cfg, draw, cycles)[o]; Consistent(i.staticProb, i.switchProb)
    {
      ShortObjectIsConsistent(n, cfg, draw, cycles - 1, o);
    }
  }

  // ---------------------------------------------------------------- inputs and latches

  /** The activity of an object that is not computed from a diagram. */
  function SignalInfo(k: Kind, clock: bool, i: Info): Info {
    match k
    case PI =>
      if clock then i.(switchAct := 2.0, switchProb := 1.0, staticProb := 0.5) else i.(switchAct := i.switchProb)
    case BO => i.(switchAct := i.switchProb)
    case LATCH => i.(switchAct := i.switchProb)
    case _ => i
  }

  ghost function Signals(n: Net, clocks: set<nat>, s: seq<Info>): (t: seq<Info>)
    requires |s| == n.Size()
    ensures |t| == |s|
  {
    seq(|s|, o requires 0 <= o < |s| => SignalInfo(n.kind[o], o in clocks, s[o]))
  }

  lemma ClocksStayInRange(n: Net, clocks: set<nat>, s: seq<Info>)
    requires |s| == n.Size() && AllInRange(s)
    ensures AllInRange(Signals(n, clocks, s))
    ensures AllConsistent(s) ==> AllConsistent(Signals(n, clocks, s))
  {
  }

  /** Stage 3: the latch outputs, and a check of the inputs. */
  method RegisterActivities(n: Net, info: array<Info>) returns (ok: bool)
    requires info.Length == n.Size() && AllInRange(info[..])
    modifies info
    ensures ok <==> forall o: nat | o < n.Size() && n.kind[o] == PI :: old(info[o]).switchAct >= 0.0
    ensures forall o: nat | o < n.Size() ::
              info[o] == if n.kind[o] == BO then old(info[o]).(switchAct := old(info[o]).switchProb) else old(info[o])
  {
    for o := 0 to info.Length
      invariant forall j: nat | j < info.Length ::
                  info[j] == if j < o && n.kind[j] == BO
                    then old(info[..])[j].(switchAct := old(info[..])[j].switchProb)
                             else old(info[..])[j]
    {
      if n.kind[o] == BO {
        info[o] := info[o].(switchAct := info[o].switchProb);
        assert old(info[..])[o].switchProb >= 0.0;
        assert info[o].switchAct >= 0.0;
      }
    }
    for o := 0 to info.Length
      invariant forall j: nat | j < o && n.kind[j] == PI :: old(info[..])[j].switchAct >= 0.0
    {
      if n.kind[o] == PI && info[o].switchAct < 0.0 {
        assert info[o] == old(info[..])[o];
        return false;
      }
    }
    return true;
  }

  /** The first loop of stage 4. */
  method SignalActivities(n: Net, clocks: set<nat>, info: array<Info>)
    requires info.Length == n.Size()
    modifies info
    ensures info[..] == Signals(n, clocks, old(info[..]))
  {
    for o := 0 to info.Length
      invariant forall j: nat | j < o :: info[j] == SignalInfo(n.kind[j], j in clocks, old(info[..])[j])
      invariant forall j: nat | o <= j < info.Length :: info[j] == old(info[..])[j]
    {
      match n.kind[o]
      case PI =>
        if o in clocks {
          info[o] := info[o].(switchAct := 2.0);
          info[o] := info[o].(switchProb := 1.0);
          info[o] := info[o].(staticProb := 0.5);
        } else {
          info[o] := info[o].(switchAct := info[o].switchProb);
        }
      case BO | LATCH =>
        info[o] := info[o].(switchAct := info[o].switchProb);
      case _ =>
    }
  }

  // ---------------------------------------------------------------- logic nodes

  /** The records agree in all that the activity of a node is computed from. */
  ghost predicate SameInputs(s: seq<Info>, t: seq<Info>) {
    |s| == |t| && forall o: nat | o < |s| ::
      s[o].staticProb == t[o].staticProb && s[o].switchProb == t[o].switchProb && s[o].depth == t[o].depth
  }

  ghost predicate SameChains(f: seq<Info>, g: seq<Info>) {
    |f| == |g| && forall i | 0 <= i < |f| ::
      f[i].staticProb == g[i].staticProb && f[i].prob0to1 == g[i].prob0to1 && f[i].prob1to0 == g[i].prob1to0
  }

  lemma {:induction false} SwitchSumReadsChains(next: Edge, e: Edge, c: seq<Literal>, f: seq<Info>, g: seq<Info>,
                                                phase: bool)
    requires |c| == |f| == |g| && Within(next, |f|) && Within(e, |f|) && SameChains(f, g)
    ensures SwitchSum(next, e, c, f, phase) == SwitchSum(next, e, c, g, phase)
    decreases e.node
  {
    if e.node.One? {
      assert NextWeights(c, f) == NextWeights(c, g);
    } else {
      var v := e.node.index;
      SwitchSumReadsChains(next, If1(e), c[v := ONE], f, g, phase);
      SwitchSumReadsChains(next, If0(e), c[v := ZERO], f, g, phase);
    }
  }

  /** The fanin records of node `o` with the transition probabilities that its depth implies. */
  ghost function FaninChains(n: Net, s: seq<Info>, o: nat): (f: seq<Info>)
    requires |s| == n.Size() && o < n.Size() && s[o].depth > 0
    ensures |f| == |n.fanins[o]|
  {
    Fetch(WithChains(s, n.fanins[o], DepthScale(s[o].depth)), n.fanins[o])
  }

  /** The activity of a logic node. */
  ghost function NodeActivity(n: Net, s: seq<Info>, o: nat): real
    requires |s| == n.Size() && o < n.Size() && n.kind[o] == NODE && s[o].depth > 0
  {
    assert Local(n, o);
    if n.fanins[o] == [] then 0.0 else Estimate(n.pData[o], FaninChains(n, s, o), DepthScale(s[o].depth))
  }

  /** No clamp aborts on a fanin of node `o`. */
  ghost predicate NodeClamps(n: Net, s: seq<Info>, o: nat)
    requires |s| == n.Size() && o < n.Size() && s[o].depth > 0
  {
    forall i | 0 <= i < |n.fanins[o]| :: ClampHolds(s[n.fanins[o][i]], DepthScale(s[o].depth))
  }

  lemma ActivityReadsInputs(n: Net, s: seq<Info>, t: seq<Info>, o: nat)
    requires |s| == |t| == n.Size() && o < n.Size() && n.kind[o] == NODE && s[o].depth > 0 && SameInputs(s, t)
    ensures NodeActivity(n, s, o) == NodeActivity(n, t, o) && NodeClamps(n, s, o) == NodeClamps(n, t, o)
  {
    assert Local(n, o);
    if n.fanins[o] != [] {
      var bdd := n.pData[o];
      SwitchSumReadsChains(bdd, bdd, DontCare(|n.fanins[o]|), FaninChains(n, s, o), FaninChains(n, t, o),
        MajorityPhase(bdd));
    }
  }

  /** From consistent fanins no clamp aborts, and the activity is between 0 and `2 d` times the chance of either
      value of the node. */
  lemma NodeActivityInRange(n: Net, s: seq<Info>, o: nat)
    requires |s| == n.Size() && o < n.Size() && n.kind[o] == NODE && s[o].depth > 0
    requires FaninsConsistent(s, n.fanins[o])
    ensures Local(n, o) && NodeClamps(n, s, o)
    ensures var d, ps, phase := DepthScale(s[o].depth), Statics(FaninChains(n, s, o)), MajorityPhase(n.pData[o]);
            && 0.0 <= NodeActivity(n, s, o) <= Scaled(Reach(n.pData[o], ps, phase), d)
            && NodeActivity(n, s, o) <= Scaled(Reach(n.pData[o], ps, !phase), d)
  {
    assert Local(n, o);
    var d, f, bdd := DepthScale(s[o].depth), FaninChains(n, s, o), n.pData[o];
    ChainsAreStationary(s, n.fanins[o], d);
    EstimateBelowPhases(bdd, f, d);
    ReachIsProbability(bdd, Statics(f), MajorityPhase(bdd));
    ReachIsProbability(bdd, Statics(f), !MajorityPhase(bdd));
    ScaledMonotone(0.0, Reach(bdd, Statics(f), MajorityPhase(bdd)), d);
    ScaledMonotone(0.0, Reach(bdd, Statics(f), !MajorityPhase(bdd)), d);
  }

  /** The records differ only in what stage 4 writes for and around logic nodes. */
  ghost predicate OnlyActivities(s: seq<Info>, t: seq<Info>) {
    |s| == |t| && forall o: nat | o < |s| ::
      t[o] == s[o].(prob0to1 := t[o].prob0to1, prob1to0 := t[o].prob1to0, switchAct := t[o].switchAct)
  }

  /** The first `k` logic nodes have their activity; every other activity is the one in `s`. */
  ghost predicate NodesDone(n: Net, s: seq<Info>, t: seq<Info>, k: nat)
    requires |s| == |t| == n.Size() && k <= |n.dfs|
    requires forall o: nat | o < n.Size() && n.kind[o] == NODE :: s[o].depth > 0
  {
    && (forall i: nat | i < k :: t[n.dfs[i]].switchAct == NodeActivity(n, s, n.dfs[i]))
    && (forall o: nat | o < n.Size() && n.kind[o] != NODE :: t[o].switchAct == s[o].switchAct)
  }

  ghost predicate DepthsPositive(n: Net, s: seq<Info>) {
    |s| == n.Size() && forall o: nat | o < n.Size() && n.kind[o] == NODE :: s[o].depth > 0
  }

  /** From the records `s`, with the activities of inputs and latches in place, every logic node got its own. */
  ghost predicate Finished(n: Net, s: seq<Info>, t: seq<Info>) {
    DepthsPositive(n, s) && AllInRange(s) && OnlyActivities(s, t) && NodesDone(n, s, t, |n.dfs|)
  }

  ghost predicate ClampsHold(n: Net, s: seq<Info>, k: nat)
    requires DepthsPositive(n, s) && k <= |n.dfs|
  {
    forall i: nat | i < k :: NodeClamps(n, s, n.dfs[i])
  }

  lemma ChainsOnlyActivities(s: seq<Info>, t: seq<Info>, fanins: seq<nat>, d: int)
    requires OnlyActivities(s, t) && d >= 1
    ensures OnlyActivities(s, WithChains(t, fanins, d))
    ensures forall o: nat | o < |s| :: WithChains(t, fanins, d)[o].switchAct == t[o].switchAct
  {
  }

  /** The body of the second loop of stage 4, before the result is stored; None when a clamp aborts. */
  method OneActivity(n: Net, info: array<Info>, obj: nat, ghost base: seq<Info>) returns (switchAct: Option<real>)
    requires info.Length == n.Size() && obj < n.Size() && n.kind[obj] == NODE
    requires DepthsPositive(n, base) && AllInRange(base) && OnlyActivities(base, info[..])
    modifies info
    ensures switchAct.Some? <==> NodeClamps(n, base, obj)
    ensures switchAct.Some? ==>
              && OnlyActivities(base, info[..])
                && (forall o: nat | o < n.Size() :: info[o].switchAct == old(info[o].switchAct))
              && switchAct.value == NodeActivity(n, base, obj)
  {
    if |n.fanins[obj]| < 1 {
      return Some(0.0);
    }
    assert Local(n, obj);
    forall i: nat | i < |n.fanins[obj]| ensures 0.0 <= info[n.fanins[obj][i]].staticProb <= 1.0 {
      assert 0.0 <= base[n.fanins[obj][i]].staticProb <= 1.0;
    }
    switchAct := AceBddCalcSwitchAct(info, obj, n.pData[obj], n.fanins[obj]);
    ActivityReadsInputs(n, base, old(info[..]), obj);
    if switchAct.Some? {
      ChainsOnlyActivities(base, old(info[..]), n.fanins[obj], DepthScale(old(info[..])[obj].depth));
      assert switchAct.value >= 0.0;
    }
  }

  method StoreActivity(n: Net, info: array<Info>, k: nat, ghost base: seq<Info>) returns (ok: bool)
    requires info.Length == n.Size() && k < |n.dfs|
    requires DepthsPositive(n, base) && AllInRange(base) && OnlyActivities(base, info[..])
    requires NodesDone(n, base, info[..], k)
    modifies info
    ensures ok <==> NodeClamps(n, base, n.dfs[k])
    ensures ok ==> OnlyActivities(base, info[..]) && NodesDone(n, base, info[..], k + 1)
  {
    var a := OneActivity(n, info, n.dfs[k], base);
    if a.None? {
      return false;
    }
    info[n.dfs[k]] := info[n.dfs[k]].(switchAct := a.value);
    return true;
  }

  method NodeActivities(n: Net, info: array<Info>) returns (ok: bool)
    requires info.Length == n.Size() && DepthsPositive(n, info[..]) && AllInRange(info[..])
    modifies info
    ensures ok <==> ClampsHold(n, old(info[..]), |n.dfs|)
    ensures ok ==> Finished(n, old(info[..]), info[..])
  {
    for k := 0 to |n.dfs|
      invariant OnlyActivities(old(info[..]), info[..]) && NodesDone(n, old(info[..]), info[..], k)
      invariant ClampsHold(n, old(info[..]), k)
    {
      var stored := StoreActivity(n, info, k, old(info[..]));
      if !stored {
        return false;
      }
    }
    return true;
  }

  // ---------------------------------------------------------------- the whole computation

  /** The five assertions on an input other than the clock. */
  predicate InputGood(i: Info) {
    && 0.0 <= i.staticProb <= 1.0 && 0.0 <= i.switchProb <= 1.0 && 0.0 <= i.switchAct <= 1.0
    && i.switchProb <= 2.0 * (1.0 - i.staticProb) && i.switchProb <= 2.0 * i.staticProb
  }

  /** They hold exactly if some stationary signal has the two probabilities and the activity is in the unit interval. */
  lemma InputGoodExactly(i: Info)
    ensures InputGood(i) <==> Consistent(i.staticProb, i.switchProb) && 0.0 <= i.switchAct <= 1.0
  {
  }

  function Mark(k: Kind, i: Info): Info {
    i.(sim := i.sim.(status := if k == PI then DEF else UNDEF))
  }

  ghost function MarkAll(n: Net, s: seq<Info>): (t: seq<Info>)
    requires |s| == n.Size()
    ensures |t| == n.Size()
  {
    seq(|s|, o requires 0 <= o < |s| => Mark(n.kind[o], s[o]))
  }

  /** The opening loops: every status is reset and the inputs are checked. */
  method MarkInputs(n: Net, clocks: set<nat>, info: array<Info>) returns (good: bool)
    requires info.Length == n.Size()
    modifies info
    ensures good <==> forall o: nat | o < n.Size() && n.kind[o] == PI && o !in clocks :: InputGood(old(info[..])[o])
    ensures good ==> forall o: nat | o < n.Size() :: info[o] == Mark(n.kind[o], old(info[..])[o])
    ensures good ==> forall o: nat | o < n.Size() :: info[o].sim.status == if n.kind[o] == PI then DEF else UNDEF
  {
    for o := 0 to info.Length
      invariant forall j: nat | j < info.Length ::
                  info[j] == if j < o then Mark(NODE, old(info[..])[j]) else old(info[..])[j]
    {
      info[o] := info[o].(sim := info[o].sim.(status := UNDEF));
    }
    for o := 0 to info.Length
      invariant forall j: nat | j < info.Length ::
                  info[j] == if j < o then Mark(n.kind[j], old(info[..])[j]) else Mark(NODE, old(info[..])[j])
      invariant forall j: nat | j < o && n.kind[j] == PI && j !in clocks :: InputGood(old(info[..])[j])
    {
      if n.kind[o] == PI {
        if o !in clocks && !InputGood(info[o]) {
          assert !InputGood(old(info[..])[o]);
          return false;
        }
        info[o] := info[o].(sim := info[o].sim.(status := DEF));
      }
    }
    return true;
  }

  /** Stages 3 and 4 after a simulation: they fail on an input whose activity was negative to begin with, and where
      a clamp aborts. */
  method ComputeActivities(n: Net, clocks: set<nat>, info: array<Info>) returns (ok: bool)
    requires info.Length == n.Size() && DepthsPositive(n, info[..]) && AllInRange(info[..])
    modifies info
    ensures DepthsPositive(n, Signals(n, clocks, old(info[..])))
    ensures ok <==>
            && (forall o: nat | o < n.Size() && n.kind[o] == PI :: old(info[..])[o].switchAct >= 0.0)
            && ClampsHold(n, Signals(n, clocks, old(info[..])), |n.dfs|)
    ensures ok ==> Finished(n, Signals(n, clocks, old(info[..])), info[..])
  {
    ok := RegisterActivities(n, info);
    if !ok {
      return;
    }
    SignalActivities(n, clocks, info);
    assert info[..] == Signals(n, clocks, old(info[..]));
    ClocksStayInRange(n, clocks, old(info[..]));
    ok := NodeActivities(n, info);
  }

  // ---------------------------------------------------------------- when a clamp aborts

  /** The records that the activities of logic nodes are computed from. */
  ghost function Base(n: Net, clocks: set<nat>, cfg: seq<Info>, draw: (nat, nat) -> real, cycles: nat): (s: seq<Info>)
    requires |cfg| == n.Size() && cycles > 0
    ensures |s| == n.Size()
  {
    Signals(n, clocks, Simulated(n, cfg, draw, cycles))
  }

  ghost predicate IsClock(n: Net, clocks: set<nat>, o: nat)
    requires o < n.Size()
  {
    n.kind[o] == PI && o in clocks
  }

  /** The clamps read the two probabilities only, and those of a clock pass. */
  lemma SignalClamps(k: Kind, clock: bool, i: Info, d: int)
    requires d >= 1
    ensures ClampHolds(SignalInfo(k, clock, i), d) == ((k == PI && clock) || ClampHolds(i, d))
  {
    if k == PI && clock {
      ConsistentChain(SignalInfo(k, clock, i), d);
    }
  }

  lemma BaseRecord(n: Net, clocks: set<nat>, cfg: seq<Info>, draw: (nat, nat) -> real, cycles: nat, o: nat)
    requires |cfg| == n.Size() && cycles > 0 && o < n.Size()
    ensures Base(n, clocks, cfg, draw, cycles)[o]
            == SignalInfo(n.kind[o], o in clocks, Averaged(Run(n, cfg, draw, cycles)[o], cycles))
  {
  }

  lemma SignalClampsExactly(n: Net, clocks: set<nat>, cfg: seq<Info>, draw: (nat, nat) -> real, cycles: nat, o: nat,
                            d: int)
    requires |cfg| == n.Size() && cycles > 0 && o < n.Size() && d >= 1
    ensures ClampHolds(Base(n, clocks, cfg, draw, cycles)[o], d)
            == (IsClock(n, clocks, o) || !(d == 1 && Fragile(n, cfg, draw, cycles, o)))
  {
    BaseRecord(n, clocks, cfg, draw, cycles, o);
    SignalClamps(n.kind[o], o in clocks, Averaged(Run(n, cfg, draw, cycles)[o], cycles), d);
    RecordClampsExactly(n, cfg, draw, cycles - 1, o, d);
  }

  /** The node has depth factor 1 and reads an object, other than a clock, whose record comes from a fragile input. */
  ghost predicate NodeAborts(n: Net, clocks: set<nat>, cfg: seq<Info>, draw: (nat, nat) -> real, cycles: nat, o: nat)
    requires |cfg| == n.Size() && o < n.Size() && cfg[o].depth > 0
  {
    DepthScale(cfg[o].depth) == 1 && exists i: nat ::
      i < |n.fanins[o]| && !IsClock(n, clocks, n.fanins[o][i]) && Fragile(n, cfg, draw, cycles, n.fanins[o][i])
  }

  ghost predicate NoNodeAborts(n: Net, clocks: set<nat>, cfg: seq<Info>, draw: (nat, nat) -> real, cycles: nat)
    requires DepthsPositive(n, cfg)
  {
    forall o: nat | o < n.Size() && n.kind[o] == NODE :: !NodeAborts(n, clocks, cfg, draw, cycles, o)
  }

  lemma NodeClampsExactly(n: Net, clocks: set<nat>, cfg: seq<Info>, draw: (nat, nat) -> real, cycles: nat, o: nat)
    requires |cfg| == n.Size() && cycles > 0 && o < n.Size() && cfg[o].depth > 0
    requires Base(n, clocks, cfg, draw, cycles)[o].depth == cfg[o].depth
    ensures NodeClamps(n, Base(n, clocks, cfg, draw, cycles), o) == !NodeAborts(n, clocks, cfg, draw, cycles, o)
  {
    var d := DepthScale(cfg[o].depth);
    forall i: nat | i < |n.fanins[o]|
      ensures ClampHolds(Base(n, clocks, cfg, draw, cycles)[n.fanins[o][i]], d)
              == (IsClock(n, clocks, n.fanins[o][i]) || !(d == 1 && Fragile(n, cfg, draw, cycles, n.fanins[o][i])))
    {
      SignalClampsExactly(n, clocks, cfg, draw, cycles, n.fanins[o][i], d);
    }
  }

  lemma BaseKeepsDepths(n: Net, clocks: set<nat>, cfg: seq<Info>, draw: (nat, nat) -> real, cycles: nat, o: nat)
    requires |cfg| == n.Size() && cycles > 0 && o < n.Size()
    ensures Base(n, clocks, cfg, draw, cycles)[o].depth == cfg[o].depth
  {
    RunSteady(n, cfg, draw, cycles);
    assert Run(n, cfg, draw, cycles)[o].(sim := cfg[o].sim) == cfg[o];
  }

  /** For every network and every length of run: stage 4 aborts exactly if some logic node of depth factor 1 reads a
      fragile input, or a latch output whose source is one. */
  lemma ClampsHoldExactly(n: Net, clocks: set<nat>, cfg: seq<Info>, draw: (nat, nat) -> real, cycles: nat)
    requires DepthsPositive(n, cfg) && cycles > 0 && DepthsPositive(n, Base(n, clocks, cfg, draw, cycles))
    ensures ClampsHold(n, Base(n, clocks, cfg, draw, cycles), |n.dfs|) == NoNodeAborts(n, clocks, cfg, draw, cycles)
  {
    var base := Base(n, clocks, cfg, draw, cycles);
    forall o: nat | o < n.Size() && n.kind[o] == NODE
      ensures NodeClamps(n, base, o) == !NodeAborts(n, clocks, cfg, draw, cycles, o)
    {
      BaseKeepsDepths(n, clocks, cfg, draw, cycles, o);
      NodeClampsExactly(n, clocks, cfg, draw, cycles, o);
    }
    if ClampsHold(n, base, |n.dfs|) {
      forall o: nat | o < n.Size() && n.kind[o] == NODE ensures !NodeAborts(n, clocks, cfg, draw, cycles, o) {
        assert NodeClamps(n, base, n.dfs[Rank(n, o) - 1]);
      }
    }
  }

  /** In a short run that passes its closing assertions no node aborts. */
  lemma ShortRunsComplete(n: Net, clocks: set<nat>, cfg: seq<Info>, draw: (nat, nat) -> real, cycles: nat)
    requires DepthsPositive(n, cfg) && ShortRun(cycles) && NoInputTrips(n, cfg, draw, cycles)
    ensures NoNodeAborts(n, clocks, cfg, draw, cycles)
  {
    forall o: nat | o < n.Size() ensures !Fragile(n, cfg, draw, cycles, o) {
      ShortRunsStopFragile(n, cfg, draw, cycles, o);
    }
  }

  // ---------------------------------------------------------------- what is reported

  /** The clock has the fixed numbers.  Any other object has the averages of its counters at the end of the run; for
      inputs, latch outputs and latches the average number of toggles is also the activity. */
  ghost predicate SignalReported(k: Kind, clock: bool, end: Info, cycles: nat, t: Info) {
    && t.sim == end.sim.(status := SIM)
    && if k == PI && clock then t.switchAct == 2.0 && t.switchProb == 1.0 && t.staticProb == 0.5
       else
         && t.staticProb * cycles as real == end.sim.numOnes as real
         && t.switchProb * cycles as real == end.sim.numToggles as real
         && (k in {PI, BO, LATCH} ==> t.switchAct * cycles as real == end.sim.numToggles as real)
         && (k in {PO, BI} ==> t.switchAct == end.switchAct)
  }

  /** The chains `f` have the one-probabilities of the fanins and move with `1 / d` of their rates. */
  ghost predicate ChainsFrom(t: seq<Info>, fanins: seq<nat>, d: int, f: seq<Info>) {
    |f| == |fanins| && forall i: nat | i < |fanins| ::
      && fanins[i] < |t| && f[i].staticProb == t[fanins[i]].staticProb
      && MovesAt(t[fanins[i]].staticProb, t[fanins[i]].switchProb, d, f[i].prob0to1, f[i].prob1to0)
  }

  /** `x` is `2 d` times the explicit sum over the paths of `bdd`, whose inputs move like `f`. */
  ghost predicate IsActivity(x: real, d: int, bdd: Edge, f: seq<Info>) {
    Within(bdd, |f|) && x == 2.0 * d as real * PathEstimate(bdd, f)
  }

  /** The activity of a logic node is 0 without fanins; otherwise the one of its diagram, from the reported
      probabilities of its fanins. */
  ghost predicate NodeReported(n: Net, t: seq<Info>, o: nat)
    requires |t| == n.Size() && o < n.Size() && t[o].depth > 0
  {
    if n.fanins[o] == [] then t[o].switchAct == 0.0
    else
      var d := DepthScale(t[o].depth);
      exists f: seq<Info> :: ChainsFrom(t, n.fanins[o], d, f) && IsActivity(t[o].switchAct, d, n.pData[o], f)
  }

  ghost predicate Reported(n: Net, clocks: set<nat>, end: seq<Info>, cycles: nat, t: seq<Info>)
    requires |end| == n.Size()
  {
    && DepthsPositive(n, t)
    && (forall o: nat | o < n.Size() :: SignalReported(n.kind[o], o in clocks, end[o], cycles, t[o]))
    && (forall o: nat | o < n.Size() && n.kind[o] == NODE :: NodeReported(n, t, o))
  }

  lemma SignalIsReported(k: Kind, clock: bool, end: Info, cycles: nat, t: Info)
    requires cycles > 0
    requires var i := SignalInfo(k, clock, Averaged(end, cycles));
             && t == i.(prob0to1 := t.prob0to1, prob1to0 := t.prob1to0, switchAct := t.switchAct)
             && (k != NODE ==> t.switchAct == i.switchAct)
    ensures SignalReported(k, clock, end, cycles, t)
  {
    var c := cycles as real;
    assert end.sim.numOnes as real / c * c == end.sim.numOnes as real;
    assert end.sim.numToggles as real / c * c == end.sim.numToggles as real;
  }

  lemma FaninChainsAreFrom(n: Net, s: seq<Info>, t: seq<Info>, o: nat)
    requires |s| == n.Size() && o < n.Size() && s[o].depth > 0 && AllInRange(s) && OnlyActivities(s, t)
    ensures ChainsFrom(t, n.fanins[o], DepthScale(s[o].depth), FaninChains(n, s, o))
  {
    var d := DepthScale(s[o].depth);
    forall i: nat | i < |n.fanins[o]|
      ensures var p, f := s[n.fanins[o][i]], FaninChains(n, s, o)[i];
              f.staticProb == p.staticProb && MovesAt(p.staticProb, p.switchProb, d, f.prob0to1, f.prob1to0)
    {
      ChainMoves(s[n.fanins[o][i]], d);
    }
  }

  lemma NodeIsReported(n: Net, s: seq<Info>, t: seq<Info>, o: nat)
    requires Finished(n, s, t) && o < n.Size() && n.kind[o] == NODE
    ensures t[o].depth > 0 && NodeReported(n, t, o)
  {
    assert Local(n, o);
    var activity := t[o].switchAct;
    assert activity == NodeActivity(n, s, n.dfs[Rank(n, o) - 1]) && t[o].depth == s[o].depth;
    if n.fanins[o] != [] {
      var d, f := DepthScale(s[o].depth), FaninChains(n, s, o);
      assert activity == Estimate(n.pData[o], f, d);
      FaninChainsAreFrom(n, s, t, o);
      EstimateIsActivity(activity, d, n.pData[o], f);
    }
  }

  lemma EstimateIsActivity(x: real, d: int, bdd: Edge, f: seq<Info>)
    requires Within(bdd, |f|) && ReadOnce(bdd) && x == Estimate(bdd, f, d)
    ensures IsActivity(x, d, bdd, f)
  {
    var sum := EstimateFromSum(bdd, f, d);
    ScaledIs(x, sum, d);
  }

  lemma FinishedIsReported(n: Net, clocks: set<nat>, cfg: seq<Info>, draw: (nat, nat) -> real, cycles: nat,
                           t: seq<Info>)
    requires |cfg| == n.Size() && cycles > 0 && Finished(n, Base(n, clocks, cfg, draw, cycles), t)
    ensures Reported(n, clocks, Run(n, cfg, draw, cycles), cycles, t)
  {
    var s, end := Base(n, clocks, cfg, draw, cycles), Run(n, cfg, draw, cycles);
    forall o: nat | o < n.Size() ensures SignalReported(n.kind[o], o in clocks, end[o], cycles, t[o]) {
      BaseRecord(n, clocks, cfg, draw, cycles, o);
      assert t[o] == s[o].(prob0to1 := t[o].prob0to1, prob1to0 := t[o].prob1to0, switchAct := t[o].switchAct);
      SignalIsReported(n.kind[o], o in clocks, end[o], cycles, t[o]);
    }
    forall o: nat | o < n.Size() && n.kind[o] == NODE ensures t[o].depth > 0 && NodeReported(n, t, o) {
      NodeIsReported(n, s, t, o);
    }
  }

  /** So the reported activity of an input is the number of changes of its stream, and one more if it starts with 1,
      per cycle; that of a latch output or a latch is the same number for its source. */
  lemma ActivityIsToggleRate(n: Net, clocks: set<nat>, cfg: seq<Info>, draw: (nat, nat) -> real, cycles: nat,
                             t: seq<Info>, o: nat)
    requires |cfg| == n.Size() && cycles > 0 && Reported(n, clocks, Run(n, cfg, draw, cycles), cycles, t)
    requires o < n.Size() && n.kind[o] in {PI, BO, LATCH} && !IsClock(n, clocks, o)
    requires n.kind[Origin(n, o)] in {PI, NODE}
    ensures var p := Origin(n, o);
            var s := SimTrace(n, cfg, draw, cycles, p);
            && s != []
            && t[o].switchAct * cycles as real == (Changes(s) + if n.kind[p] == PI then s[0] else 0) as real
            && t[o].staticProb * cycles as real == CountOnes(s) as real
  {
    var end, s := Run(n, cfg, draw, cycles)[o], SimTrace(n, cfg, draw, cycles, Origin(n, o));
    assert Matches(n.kind[Origin(n, o)], end.sim, s) by {
      FinalCounts(n, cfg, draw, cycles - 1, o);
    }
    assert SignalReported(n.kind[o], o in clocks, end, cycles, t[o]);
    RateOfTrace(n.kind[o], o in clocks, n.kind[Origin(n, o)], end, s, cycles, t[o]);
  }

  lemma RateOfTrace(k: Kind, clock: bool, from: Kind, end: Info, s: seq<int>, cycles: nat, t: Info)
    requires Matches(from, end.sim, s) && SignalReported(k, clock, end, cycles, t)
    requires k in {PI, BO, LATCH} && !(k == PI && clock)
    ensures s != []
    ensures t.switchAct * cycles as real == (Changes(s) + if from == PI then s[0] else 0) as real
    ensures t.staticProb * cycles as real == CountOnes(s) as real
  {
  }

  // ---------------------------------------------------------------- the procedure

  /** Simulates, and computes the activities.  It completes exactly when the inputs pass their opening assertions, the
      input vectors are long enough, no input stream trips the closing assertions of the simulation, and no node reads
      a fragile input at depth factor 1: no other assertion can fail.  `start` is what the simulation starts from: the
      given records, with other stamps and statuses. */
  method AceCalcActivity(n: Net, clocks: set<nat>, info: array<Info>, numVectors: nat, draw: (nat, nat) -> real)
    returns (ok: bool, cyclic: seq<nat>, ghost start: seq<Info>)
    requires info.Length == n.Size() && 0 < numVectors
    requires forall i: nat | i < |n.dfs| :: Longest(n, n.dfs[i], info[n.dfs[i]].depth)
    modifies info
    ensures |start| == n.Size() && OnlyFlags(MarkAll(n, old(info[..])), start) && DepthsPositive(n, start)
    ensures ok <==>
            && (forall o: nat | o < n.Size() && n.kind[o] == PI && o !in clocks :: InputGood(old(info[..])[o]))
            && (forall o: nat | o < n.Size() && n.kind[o] == PI :: old(info[..])[o].switchAct >= 0.0)
            && VectorsCover(n, old(info[..]), numVectors)
            && NoInputTrips(n, start, draw, numVectors)
            && NoNodeAborts(n, clocks, start, draw, numVectors)
    ensures ok ==> cyclic == Cyclic(n, |n.latches|)
    ensures ok ==> Finished(n, Base(n, clocks, start, draw, numVectors), info[..])
    ensures ok ==> Reported(n, clocks, Run(n, start, draw, numVectors), numVectors, info[..])
  {
    ok, cyclic, start := false, [], MarkAll(n, info[..]);
    StartIsSound(n, info[..], start, numVectors);
    var good := MarkInputs(n, clocks, info);
    if !good {
      return;
    }
    assert info[..] == MarkAll(n, old(info[..]));
    cyclic := LatchesInCycles(n, info);
    start := info[..];
    StartIsSound(n, old(info[..]), start, numVectors);
    var outcome := AceSimActivities(n, info, numVectors, draw);
    if outcome != Passed {
      return;
    }
    AceUpdateLatchProbs(n, info);
    UpdateChangesNothing(n, start, draw, numVectors);
    ok := FinishActivities(n, clocks, info, numVectors, draw, start, old(info[..]));
    if ok {
      FinishedIsReported(n, clocks, start, draw, numVectors, info[..]);
    }
  }

  method FinishActivities(n: Net, clocks: set<nat>, info: array<Info>, numVectors: nat, draw: (nat, nat) -> real,
                          ghost start: seq<Info>, ghost was: seq<Info>)
    returns (ok: bool)
    requires info.Length == |was| == |start| == n.Size() && 0 < numVectors
    requires OnlyFlags(MarkAll(n, was), start) && DepthsPositive(n, start) && NoInputTrips(n, start, draw, numVectors)
    requires info[..] == Simulated(n, start, draw, numVectors)
    modifies info
    ensures ok <==>
            && (forall o: nat | o < n.Size() && n.kind[o] == PI :: was[o].switchAct >= 0.0)
            && NoNodeAborts(n, clocks, start, draw, numVectors)
    ensures ok ==> Finished(n, Base(n, clocks, start, draw, numVectors), info[..])
  {
    SimulatedIsInRange(n, start, draw, numVectors);
    SimulationKeepsTheRest(n, was, start, draw, numVectors);
    ok := ComputeActivities(n, clocks, info);
    ClampsHoldExactly(n, clocks, start, draw, numVectors);
  }

  /** The records handed to the simulation have the depths and the vectors of the given ones. */
  lemma StartIsSound(n: Net, was: seq<Info>, start: seq<Info>, cycles: nat)
    requires |was| == |start| == n.Size() && OnlyFlags(MarkAll(n, was), start)
    requires forall i: nat | i < |n.dfs| :: Longest(n, n.dfs[i], was[n.dfs[i]].depth)
    ensures DepthsPositive(n, start) && VectorsCover(n, start, cycles) == VectorsCover(n, was, cycles)
  {
    forall o: nat | o < n.Size() ensures start[o].depth == was[o].depth && start[o].values == was[o].values {
      assert start[o] == MarkAll(n, was)[o].(flag := start[o].flag);
    }
    forall o: nat | o < n.Size() && n.kind[o] == NODE ensures was[o].depth > 0 {
      LongestIsUnique(n, o, was[n.dfs[Rank(n, o) - 1]].depth, was[n.dfs[Rank(n, o) - 1]].depth);
    }
  }

  /** Depths and activities are what they were before the simulation. */
  lemma SimulationKeepsTheRest(n: Net, was: seq<Info>, start: seq<Info>, draw: (nat, nat) -> real, cycles: nat)
    requires |was| == |start| == n.Size() && OnlyFlags(MarkAll(n, was), start) && DepthsPositive(n, start) && cycles > 0
    ensures DepthsPositive(n, Simulated(n, start, draw, cycles))
    ensures forall o: nat | o < n.Size() :: Simulated(n, start, draw, cycles)[o].switchAct == was[o].switchAct
  {
    RunSteady(n, start, draw, cycles);
    forall o: nat | o < n.Size()
      ensures Simulated(n, start, draw, cycles)[o].switchAct == was[o].switchAct
      ensures Simulated(n, start, draw, cycles)[o].depth == start[o].depth
    {
      assert Run(n, start, draw, cycles)[o].(sim := start[o].sim) == start[o];
      assert start[o] == MarkAll(n, was)[o].(flag := start[o].flag);
    }
  }
}
