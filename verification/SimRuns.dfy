/** Whole runs of the simulator: in every cycle every signal holds its reference value, and its counters are the
    exact statistics of its trace. */
module SimRuns {
  import opened AceInfo
  import opened Network
  import opened Sim
  import opened SimLatches
  import opened SimRefines
  import opened SimCounters

  // ---------------------------------------------------------------- the invariant

  /** Signal `o` half-way through the evaluation of cycle `t`, when the first `k` nodes are done. */
  ghost function Midway(n: Net, src: seq<nat>, cfg: seq<Info>, draw: (nat, nat) -> real, t: nat, k: nat,
                        o: nat): Activity
    requires |cfg| == n.Size() && o < n.Size()
  {
    if n.kind[o] == NODE && Rank(n, o) > k then Before(n, src, cfg, draw, t, o) else Expected(n, src, cfg, draw, t, o)
  }

  /** The records of the signals; other objects are not looked at. */
  ghost function Signals(n: Net, s: seq<Info>): seq<Option<Info>>
    requires |s| == n.Size()
  {
    seq(|s|, o requires 0 <= o < |s| => if IsSignal(n.kind[o]) then Some(s[o]) else None)
  }

  ghost function SignalsMidway(n: Net, src: seq<nat>, cfg: seq<Info>, draw: (nat, nat) -> real, t: nat,
                               k: nat): seq<Option<Info>>
    requires |cfg| == n.Size()
  {
    seq(|cfg|, o requires 0 <= o < |cfg| =>
      if IsSignal(n.kind[o]) then Some(cfg[o].(sim := Midway(n, src, cfg, draw, t, k, o))) else None)
  }

  ghost function SignalsBefore(n: Net, src: seq<nat>, cfg: seq<Info>, draw: (nat, nat) -> real,
                               t: nat): seq<Option<Info>>
    requires |cfg| == n.Size()
  {
    seq(|cfg|, o requires 0 <= o < |cfg| =>
      if IsSignal(n.kind[o]) then Some(cfg[o].(sim := Before(n, src, cfg, draw, t, o))) else None)
  }

  ghost predicate Holding(n: Net, src: seq<nat>, cfg: seq<Info>, draw: (nat, nat) -> real, t: nat, k: nat, s: seq<Info>)
    requires |cfg| == n.Size()
  {
    |s| == n.Size() && Signals(n, s) == SignalsMidway(n, src, cfg, draw, t, k)
  }

  ghost predicate Waiting(n: Net, src: seq<nat>, cfg: seq<Info>, draw: (nat, nat) -> real, t: nat, s: seq<Info>)
    requires |cfg| == n.Size()
  {
    |s| == n.Size() && Signals(n, s) == SignalsBefore(n, src, cfg, draw, t)
  }

  lemma HoldingAt(n: Net, src: seq<nat>, cfg: seq<Info>, draw: (nat, nat) -> real, t: nat, k: nat, s: seq<Info>, o: nat)
    requires |cfg| == n.Size() && Holding(n, src, cfg, draw, t, k, s) && o < n.Size() && IsSignal(n.kind[o])
    ensures s[o] == cfg[o].(sim := Midway(n, src, cfg, draw, t, k, o))
  {
    assert Signals(n, s)[o] == SignalsMidway(n, src, cfg, draw, t, k)[o];
  }

  lemma WaitingAt(n: Net, src: seq<nat>, cfg: seq<Info>, draw: (nat, nat) -> real, t: nat, s: seq<Info>, o: nat)
    requires |cfg| == n.Size() && Waiting(n, src, cfg, draw, t, s) && o < n.Size() && IsSignal(n.kind[o])
    ensures s[o] == cfg[o].(sim := Before(n, src, cfg, draw, t, o))
  {
    assert Signals(n, s)[o] == SignalsBefore(n, src, cfg, draw, t)[o];
  }

  lemma InputsArrive(n: Net, src: seq<nat>, cfg: seq<Info>, draw: (nat, nat) -> real, t: nat, s: seq<Info>)
    requires |cfg| == n.Size() && Waiting(n, src, cfg, draw, t, s)
    ensures Holding(n, src, cfg, draw, t, 0, PiStage(n, s, t, draw))
  {
    forall o: nat | o < n.Size() && IsSignal(n.kind[o])
      ensures PiStage(n, s, t, draw)[o] == cfg[o].(sim := Midway(n, src, cfg, draw, t, 0, o))
    {
      WaitingAt(n, src, cfg, draw, t, s, o);
      if n.kind[o] == PI {
        PiStepIsExpected(n, src, cfg, draw, t, o);
      }
    }
    assert Signals(n, PiStage(n, s, t, draw)) == SignalsMidway(n, src, cfg, draw, t, 0);
  }

  lemma NodeAdvances(n: Net, src: seq<nat>, cfg: seq<Info>, draw: (nat, nat) -> real, t: nat, k: nat, s: seq<Info>)
    requires |cfg| == n.Size() && Grounded(n) && k < |n.dfs| && Holding(n, src, cfg, draw, t, k, s)
    ensures n.dfs[k] < n.Size() && Local(n, n.dfs[k])
    ensures Holding(n, src, cfg, draw, t, k + 1, NodeUpdate(n, s, n.dfs[k]))
  {
    var o := n.dfs[k];
    assert Rank(n, o) == k + 1;
    forall x: nat | x < |n.fanins[o]| ensures s[n.fanins[o][x]].sim == Expected(n, src, cfg, draw, t, n.fanins[o][x]) {
      FaninsRankLower(n, o, x);
      HoldingAt(n, src, cfg, draw, t, k, s, n.fanins[o][x]);
    }
    HoldingAt(n, src, cfg, draw, t, k, s, o);
    NodeStepIsExpected(n, src, cfg, draw, t, s, o);
    var u := NodeUpdate(n, s, o);
    forall p: nat | p < n.Size() && IsSignal(n.kind[p])
      ensures u[p] == cfg[p].(sim := Midway(n, src, cfg, draw, t, k + 1, p))
    {
      HoldingAt(n, src, cfg, draw, t, k, s, p);
      assert p != o && n.kind[p] == NODE ==> Rank(n, p) != k + 1;
    }
    assert Signals(n, u) == SignalsMidway(n, src, cfg, draw, t, k + 1);
  }

  lemma NodesSettle(n: Net, src: seq<nat>, cfg: seq<Info>, draw: (nat, nat) -> real, t: nat, s: seq<Info>, k: nat)
    requires |cfg| == n.Size() && Grounded(n) && k <= |n.dfs| && Holding(n, src, cfg, draw, t, 0, s)
    ensures Holding(n, src, cfg, draw, t, k, NodeStage(n, s, k))
  {
    var inv := (i: nat, u: seq<Info>) => Holding(n, src, cfg, draw, t, i, u);
    forall i: nat, u: seq<Info> | i < k && |u| == n.Size() && inv(i, u)
      ensures n.dfs[i] < n.Size() && Local(n, n.dfs[i]) && inv(i + 1, NodeUpdate(n, u, n.dfs[i]))
    {
      NodeAdvances(n, src, cfg, draw, t, i, u);
    }
    NodeInduction(n, s, k, inv);
  }

  lemma SourcesListed(n: Net, o: nat)
    requires o < n.Size() && n.kind[o] == BO
    ensures DriverOf(n, Sources(n), o) == Source(n, LatchOf(n, o))
  {
  }

  lemma MovedIsBefore(n: Net, src: seq<nat>, cfg: seq<Info>, draw: (nat, nat) -> real, t: nat, s: seq<Info>, o: nat)
    requires src == Sources(n) && |cfg| == n.Size() && Holding(n, src, cfg, draw, t, |n.dfs|, s)
    requires o < n.Size() && IsSignal(n.kind[o])
    ensures LatchStage(n, s, |n.latches|)[o] == cfg[o].(sim := Before(n, src, cfg, draw, t + 1, o))
  {
    HoldingAt(n, src, cfg, draw, t, |n.dfs|, s, o);
    if n.kind[o] == BO {
      SourcesListed(n, o);
      LatchShowsSource(n, s, LatchOf(n, o), o);
      LatchesKeepRest(n, s, |n.latches|, o);
      HoldingAt(n, src, cfg, draw, t, |n.dfs|, s, DriverOf(n, src, o));
    } else {
      OnlyLatchObjectsMove(n, s, |n.latches|, o);
    }
  }

  lemma AllWaiting(n: Net, src: seq<nat>, cfg: seq<Info>, draw: (nat, nat) -> real, t: nat, u: seq<Info>)
    requires |cfg| == |u| == n.Size()
    requires forall o: nat | o < n.Size() && IsSignal(n.kind[o]) ::
             u[o] == cfg[o].(sim := Before(n, src, cfg, draw, t, o))
    ensures Waiting(n, src, cfg, draw, t, u)
  {
    assert Signals(n, u) == SignalsBefore(n, src, cfg, draw, t);
  }

  lemma LatchesMove(n: Net, src: seq<nat>, cfg: seq<Info>, draw: (nat, nat) -> real, t: nat, s: seq<Info>)
    requires src == Sources(n) && |cfg| == n.Size() && Holding(n, src, cfg, draw, t, |n.dfs|, s)
    ensures Waiting(n, src, cfg, draw, t + 1, LatchStage(n, s, |n.latches|))
  {
    var u := LatchStage(n, s, |n.latches|);
    forall o: nat | o < n.Size() && IsSignal(n.kind[o])
      ensures u[o] == cfg[o].(sim := Before(n, src, cfg, draw, t + 1, o))
    {
      MovedIsBefore(n, src, cfg, draw, t, s, o);
    }
    AllWaiting(n, src, cfg, draw, t + 1, u);
  }

  lemma ResetIsWaiting(n: Net, src: seq<nat>, cfg: seq<Info>, draw: (nat, nat) -> real)
    requires |cfg| == n.Size()
    ensures Waiting(n, src, cfg, draw, 0, Reset(n, cfg))
  {
  }

  lemma EvaluationHolds(n: Net, src: seq<nat>, cfg: seq<Info>, draw: (nat, nat) -> real, t: nat, s: seq<Info>)
    requires |cfg| == n.Size() && Grounded(n) && Waiting(n, src, cfg, draw, t, s)
    ensures Holding(n, src, cfg, draw, t, |n.dfs|, NodeStage(n, PiStage(n, s, t, draw), |n.dfs|))
  {
    InputsArrive(n, src, cfg, draw, t, s);
    NodesSettle(n, src, cfg, draw, t, PiStage(n, s, t, draw), |n.dfs|);
  }

  lemma CycleAdvances(n: Net, src: seq<nat>, cfg: seq<Info>, draw: (nat, nat) -> real, t: nat, s: seq<Info>)
    requires |cfg| == n.Size() && src == Sources(n) && Grounded(n) && Waiting(n, src, cfg, draw, t, s)
    ensures Waiting(n, src, cfg, draw, t + 1, Cycle(n, s, t, draw))
  {
    EvaluationHolds(n, src, cfg, draw, t, s);
    LatchesMove(n, src, cfg, draw, t, NodeStage(n, PiStage(n, s, t, draw), |n.dfs|));
  }

  lemma RunIsWaiting(n: Net, src: seq<nat>, cfg: seq<Info>, draw: (nat, nat) -> real, t: nat)
    requires |cfg| == n.Size() && src == Sources(n) && Grounded(n)
    ensures Waiting(n, src, cfg, draw, t, Run(n, cfg, draw, t))
  {
    var inv := (i: nat, s: seq<Info>) => Waiting(n, src, cfg, draw, i, s);
    ResetIsWaiting(n, src, cfg, draw);
    forall i: nat, s: seq<Info> | |s| == n.Size() && inv(i, s) ensures inv(i + 1, Cycle(n, s, i, draw)) {
      CycleAdvances(n, src, cfg, draw, i, s);
    }
    RunInduction(n, cfg, draw, t, inv);
  }

  // ---------------------------------------------------------------- refinement

  /** In every cycle every input, logic node and latch output holds exactly its expected record. */
  lemma EveryRecordIsExact(n: Net, src: seq<nat>, cfg: seq<Info>, draw: (nat, nat) -> real, t: nat, o: nat)
    requires |cfg| == n.Size() && src == Sources(n) && Grounded(n) && o < n.Size() && IsSignal(n.kind[o])
    ensures Evaluated(n, cfg, draw, t)[o] == cfg[o].(sim := Expected(n, src, cfg, draw, t, o))
    ensures Run(n, cfg, draw, t)[o] == cfg[o].(sim := Before(n, src, cfg, draw, t, o))
  {
    RunIsWaiting(n, src, cfg, draw, t);
    EvaluationHolds(n, src, cfg, draw, t, Run(n, cfg, draw, t));
    WaitingAt(n, src, cfg, draw, t, Run(n, cfg, draw, t), o);
    HoldingAt(n, src, cfg, draw, t, |n.dfs|, Evaluated(n, cfg, draw, t), o);
  }

  /** A node that no event reaches still holds the 0 it was reset to. */
  ghost predicate Stuck(n: Net, k: nat, s: seq<Info>)
  {
    && |s| == n.Size()
    && forall o: nat | o < n.Size() && SourceFree(n, o) ::
         s[o].sim.value == 0 && s[o].sim.status == if Rank(n, o) <= k then OLD else UNDEF
  }

  lemma StuckStep(n: Net, k: nat, s: seq<Info>)
    requires k < |n.dfs| && Stuck(n, k, s)
    ensures n.dfs[k] < n.Size() && Local(n, n.dfs[k])
    ensures Stuck(n, k + 1, NodeUpdate(n, s, n.dfs[k]))
  {
    var o := n.dfs[k];
    assert Rank(n, o) == k + 1 && Local(n, o);
    if SourceFree(n, o) {
      forall x: nat | x < |n.fanins[o]| ensures s[n.fanins[o][x]].sim.status == OLD {
        FaninsRankLower(n, o, x);
        assert SourceFree(n, n.fanins[o][x]);
      }
      assert FaninStatus(n, s, o) == OLD;
    }
    forall p: nat | p < n.Size() && SourceFree(n, p) && p != o ensures Rank(n, p) != k + 1 {}
  }

  lemma StuckNodes(n: Net, s: seq<Info>, k: nat)
    requires k <= |n.dfs| && Stuck(n, 0, s)
    ensures Stuck(n, k, NodeStage(n, s, k))
  {
    var inv := (i: nat, u: seq<Info>) => Stuck(n, i, u);
    forall i: nat, u: seq<Info> | i < k && |u| == n.Size() && inv(i, u)
      ensures n.dfs[i] < n.Size() && Local(n, n.dfs[i]) && inv(i + 1, NodeUpdate(n, u, n.dfs[i]))
    {
      StuckStep(n, i, u);
    }
    NodeInduction(n, s, k, inv);
  }

  /** In the first cycle a constant-1 node shows 0. */
  lemma ConstantOneIsMissed(n: Net, src: seq<nat>, cfg: seq<Info>, draw: (nat, nat) -> real, o: nat)
    requires |cfg| == n.Size() && o < n.Size() && SourceFree(n, o) && ConstVal(n, o) != 0
    ensures Evaluated(n, cfg, draw, 0)[o].sim.value != RefVal(n, src, cfg, draw, 0, o)
  {
    SourceFreeIsConstant(n, src, cfg, draw, 0, o);
    StuckNodes(n, PiStage(n, Reset(n, cfg), 0, draw), |n.dfs|);
    assert Evaluated(n, cfg, draw, 0)[o].sim.value == 0;
  }

  lemma EveryValueIsExact(n: Net, src: seq<nat>, cfg: seq<Info>, draw: (nat, nat) -> real, t: nat, o: nat)
    requires |cfg| == n.Size() && src == Sources(n) && Grounded(n) && o < n.Size() && IsSignal(n.kind[o])
    ensures Evaluated(n, cfg, draw, t)[o].sim.value == RefVal(n, src, cfg, draw, t, o)
  {
    EveryRecordIsExact(n, src, cfg, draw, t, o);
    ExpectedBasics(n, src, cfg, draw, t, o);
  }

  /** The simulator shows the values of the reference in a run. */
  ghost predicate Shows(n: Net, src: seq<nat>, cfg: seq<Info>, draw: (nat, nat) -> real)
    requires |cfg| == n.Size()
  {
    forall t: nat, o: nat | o < n.Size() && IsSignal(n.kind[o]) ::
      Evaluated(n, cfg, draw, t)[o].sim.value == RefVal(n, src, cfg, draw, t, o)
  }

  lemma ShowsNeedsGrounded(n: Net, src: seq<nat>, cfg: seq<Info>, draw: (nat, nat) -> real)
    requires |cfg| == n.Size() && Shows(n, src, cfg, draw)
    ensures Grounded(n)
  {
    if o: nat :| o < n.Size() && SourceFree(n, o) && ConstVal(n, o) != 0 {
      ConstantOneIsMissed(n, src, cfg, draw, o);
    }
  }

  /** In every network and every run the event-driven values equal those of the simulator that re-evaluates every
      node and lets every latch output show its source, exactly when every constant node is the constant 0. */
  lemma EventDrivenRefinesReference(n: Net, cfg: seq<Info>, draw: (nat, nat) -> real)
    requires |cfg| == n.Size()
    ensures Shows(n, Sources(n), cfg, draw) <==> Grounded(n)
  {
    if Grounded(n) {
      forall t: nat, o: nat | o < n.Size() && IsSignal(n.kind[o])
        ensures Evaluated(n, cfg, draw, t)[o].sim.value == RefVal(n, Sources(n), cfg, draw, t, o)
      {
        EveryValueIsExact(n, Sources(n), cfg, draw, t, o);
      }
    }
    if Shows(n, Sources(n), cfg, draw) {
      ShowsNeedsGrounded(n, Sources(n), cfg, draw);
    }
  }

  // ---------------------------------------------------------------- chains of latches

  /** Latch `k` reads the output of an earlier latch that does not read itself. */
  ghost predicate Chained(n: Net, k: nat)
    requires k < |n.latches|
  {
    Source(n, k) != n.latches[k].driver
  }

  /** No chained latch ever has a 1 at its source. */
  ghost predicate ChainsQuiet(n: Net, cfg: seq<Info>, draw: (nat, nat) -> real)
    requires |cfg| == n.Size()
  {
    forall k: nat, t: nat | k < |n.latches| && Chained(n, k) :: RefVal(n, Drivers(n), cfg, draw, t, Source(n, k)) == 0
  }

  lemma SourcePassedOn(n: Net, k: nat)
    requires k < |n.latches| && Chained(n, k)
    ensures n.latches[k].driver < n.Size() && n.kind[n.latches[k].driver] == BO
    ensures Source(n, LatchOf(n, n.latches[k].driver)) == Source(n, k)
  {
    assert LatchWired(n, n.latches[k]);
  }

  lemma DriversListed(n: Net, o: nat)
    requires o < n.Size() && n.kind[o] == BO
    ensures DriverOf(n, Drivers(n), o) == n.latches[LatchOf(n, o)].driver
  {
    assert LatchWired(n, n.latches[LatchOf(n, o)]);
  }

  lemma OutputShows(n: Net, cfg: seq<Info>, draw: (nat, nat) -> real, t: nat, o: nat)
    requires |cfg| == n.Size() && o < n.Size() && n.kind[o] == BO
    ensures LatchWired(n, n.latches[LatchOf(n, o)])
    ensures var k := LatchOf(n, o);
            && RefVal(n, Sources(n), cfg, draw, 0, o) == 0 == RefVal(n, Drivers(n), cfg, draw, 0, o)
            && RefVal(n, Sources(n), cfg, draw, t + 1, o) == RefVal(n, Sources(n), cfg, draw, t, Source(n, k))
            && RefVal(n, Drivers(n), cfg, draw, t + 1, o) == RefVal(n, Drivers(n), cfg, draw, t, n.latches[k].driver)
  {
    SourcesListed(n, o);
    DriversListed(n, o);
  }

  /** While the sources of chained latches are 0 it makes no difference whether the transfer is simultaneous. */
  lemma {:induction false} QuietReferencesAgree(n: Net, cfg: seq<Info>, draw: (nat, nat) -> real, t: nat, o: nat)
    requires |cfg| == n.Size() && o < n.Size() && ChainsQuiet(n, cfg, draw)
    ensures RefVal(n, Sources(n), cfg, draw, t, o) == RefVal(n, Drivers(n), cfg, draw, t, o)
    decreases t, Rank(n, o) + 1
  {
    match n.kind[o]
    case PI =>
      if t > 0 { QuietReferencesAgree(n, cfg, draw, t - 1, o); }
    case BO =>
      QuietOutputsAgree(n, cfg, draw, t, o);
    case NODE =>
      forall x: nat | x < |n.fanins[o]|
        ensures RefFanins(n, Sources(n), cfg, draw, t, o)[x] == RefFanins(n, Drivers(n), cfg, draw, t, o)[x]
      {
        FaninsRankLower(n, o, x);
        QuietReferencesAgree(n, cfg, draw, t, n.fanins[o][x]);
      }
      assert RefFanins(n, Sources(n), cfg, draw, t, o) == RefFanins(n, Drivers(n), cfg, draw, t, o);
    case _ =>
  }

  lemma {:induction false} QuietOutputsAgree(n: Net, cfg: seq<Info>, draw: (nat, nat) -> real, t: nat, o: nat)
    requires |cfg| == n.Size() && o < n.Size() && n.kind[o] == BO && ChainsQuiet(n, cfg, draw)
    ensures RefVal(n, Sources(n), cfg, draw, t, o) == RefVal(n, Drivers(n), cfg, draw, t, o)
    decreases t, 0
  {
    var k := LatchOf(n, o);
    if t == 0 {
      OutputShows(n, cfg, draw, 0, o);
    } else {
      OutputShows(n, cfg, draw, t - 1, o);
      QuietReferencesAgree(n, cfg, draw, t - 1, Source(n, k));
      if Chained(n, k) {
        ChainedDriverIsQuiet(n, cfg, draw, t - 1, k);
      }
    }
  }

  /** The driver of a chained latch is a latch output with the same source. */
  lemma {:induction false} ChainedDriverIsQuiet(n: Net, cfg: seq<Info>, draw: (nat, nat) -> real, t: nat, k: nat)
    requires |cfg| == n.Size() && k < |n.latches| && Chained(n, k) && ChainsQuiet(n, cfg, draw)
    ensures n.latches[k].driver < n.Size() && RefVal(n, Drivers(n), cfg, draw, t, n.latches[k].driver) == 0
    decreases t, 1
  {
    var d := n.latches[k].driver;
    SourcePassedOn(n, k);
    QuietOutputsAgree(n, cfg, draw, t, d);
    if t == 0 {
      OutputShows(n, cfg, draw, 0, d);
    } else {
      OutputShows(n, cfg, draw, t - 1, d);
      QuietReferencesAgree(n, cfg, draw, t - 1, Source(n, k));
    }
  }

  ghost predicate AgreeAt(n: Net, cfg: seq<Info>, draw: (nat, nat) -> real, t: nat, o: nat)
    requires |cfg| == n.Size() && o < n.Size()
  {
    RefVal(n, Sources(n), cfg, draw, t, o) == RefVal(n, Drivers(n), cfg, draw, t, o)
  }

  lemma AgreementStep(n: Net, cfg: seq<Info>, draw: (nat, nat) -> real, t: nat, k: nat)
    requires |cfg| == n.Size() && k < |n.latches| && Chained(n, k) && LatchWired(n, n.latches[k])
    requires AgreeAt(n, cfg, draw, t + 1, n.latches[k].output)
    requires AgreeAt(n, cfg, draw, t, n.latches[k].driver) && AgreeAt(n, cfg, draw, t, Source(n, k))
    ensures RefVal(n, Drivers(n), cfg, draw, t, Source(n, k))
            == if t == 0 then 0 else RefVal(n, Sources(n), cfg, draw, t - 1, Source(n, k))
  {
    LatchOfOutput(n, k);
    SourcePassedOn(n, k);
    OutputShows(n, cfg, draw, t, n.latches[k].output);
    OutputShows(n, cfg, draw, if t == 0 then 0 else t - 1, n.latches[k].driver);
  }

  /** If the two references agree, every chained source stays 0: a 1 would come through one cycle too early. */
  lemma {:induction false} AgreementIsQuiet(n: Net, cfg: seq<Info>, draw: (nat, nat) -> real, t: nat, k: nat)
    requires |cfg| == n.Size() && k < |n.latches| && Chained(n, k)
    requires forall i: nat, o: nat | o < n.Size() && IsSignal(n.kind[o]) :: AgreeAt(n, cfg, draw, i, o)
    ensures RefVal(n, Drivers(n), cfg, draw, t, Source(n, k)) == 0
  {
    assert LatchWired(n, n.latches[k]);
    AgreementStep(n, cfg, draw, t, k);
    if t > 0 {
      assert AgreeAt(n, cfg, draw, t - 1, Source(n, k));
      AgreementIsQuiet(n, cfg, draw, t - 1, k);
    }
  }

  /** In every network and every run: the simulator shows the values of the synchronous circuit, with all latches
      moving at once, exactly when constant nodes are 0 and no chained latch ever has a 1 at its source. */
  lemma SynchronousExactly(n: Net, cfg: seq<Info>, draw: (nat, nat) -> real)
    requires |cfg| == n.Size()
    ensures Shows(n, Drivers(n), cfg, draw) <==> Grounded(n) && ChainsQuiet(n, cfg, draw)
  {
    EventDrivenRefinesReference(n, cfg, draw);
    if Shows(n, Drivers(n), cfg, draw) {
      ShowsNeedsGrounded(n, Drivers(n), cfg, draw);
      assert forall t: nat, o: nat | o < n.Size() && IsSignal(n.kind[o]) :: AgreeAt(n, cfg, draw, t, o);
      forall k: nat, t: nat | k < |n.latches| && Chained(n, k)
        ensures RefVal(n, Drivers(n), cfg, draw, t, Source(n, k)) == 0
      {
        AgreementIsQuiet(n, cfg, draw, t, k);
      }
    }
    if Grounded(n) && ChainsQuiet(n, cfg, draw) {
      forall t: nat, o: nat | o < n.Size() && IsSignal(n.kind[o])
        ensures Evaluated(n, cfg, draw, t)[o].sim.value == RefVal(n, Drivers(n), cfg, draw, t, o)
      {
        QuietReferencesAgree(n, cfg, draw, t, o);
      }
    }
  }

  /** In particular, without chains it does exactly when constant nodes are 0. */
  lemma ChainFreeIsSynchronous(n: Net, cfg: seq<Info>, draw: (nat, nat) -> real)
    requires |cfg| == n.Size() && ChainFree(n)
    ensures Shows(n, Drivers(n), cfg, draw) <==> Grounded(n)
  {
    SourcesAreDrivers(n);
    EventDrivenRefinesReference(n, cfg, draw);
  }

  lemma RisesAtOnce(n: Net, cfg: seq<Info>, draw: (nat, nat) -> real, o: nat)
    requires |cfg| == n.Size() && o < n.Size() && n.kind[o] == PI && Rises(cfg[o], 0, draw(0, o))
    ensures Evaluated(n, cfg, draw, 0)[o].sim.value == 1
  {
    NodeUntouched(n, PiStage(n, Reset(n, cfg), 0, draw), |n.dfs|, o);
  }

  lemma ChainedOutputLater(n: Net, cfg: seq<Info>, draw: (nat, nat) -> real, k: nat)
    requires |cfg| == n.Size() && k < |n.latches| && Chained(n, k) && n.latches[k].output < n.Size()
    ensures RefVal(n, Drivers(n), cfg, draw, 1, n.latches[k].output) == 0
  {
    LatchOfOutput(n, k);
    SourcePassedOn(n, k);
    OutputShows(n, cfg, draw, 0, n.latches[k].output);
    OutputShows(n, cfg, draw, 0, n.latches[k].driver);
  }

  lemma ChainShowsSource(n: Net, cfg: seq<Info>, draw: (nat, nat) -> real, t: nat, k: nat)
    requires |cfg| == n.Size() && k < |n.latches| && n.latches[k].output < n.Size()
    ensures Evaluated(n, cfg, draw, t + 1)[n.latches[k].output].sim == Evaluated(n, cfg, draw, t)[Source(n, k)].sim
  {
    LatchOfOutput(n, k);
    OutputFollows(n, cfg, draw, t, n.latches[k].output);
  }

  /** `t` and `next` are the first two cycles. */
  lemma ChainInCycle(n: Net, cfg: seq<Info>, draw: (nat, nat) -> real, t: nat, next: nat, k: nat)
    requires |cfg| == n.Size() && k < |n.latches| && Chained(n, k) && n.latches[k].output < n.Size()
    requires t == 0 && next == 1 && n.kind[Source(n, k)] == PI && Rises(cfg[Source(n, k)], 0, draw(0, Source(n, k)))
    ensures Evaluated(n, cfg, draw, next)[n.latches[k].output].sim.value == 1
    ensures RefVal(n, Drivers(n), cfg, draw, next, n.latches[k].output) == 0
  {
    ChainShowsSource(n, cfg, draw, t, k);
    RisesAtOnce(n, cfg, draw, Source(n, k));
    ChainedOutputLater(n, cfg, draw, k);
  }

  /** With a chain from an input that rises in the first cycle, the second latch shows the 1 one cycle too early. */
  lemma ChainShowsTooEarly(n: Net, cfg: seq<Info>, draw: (nat, nat) -> real, k: nat)
    requires |cfg| == n.Size() && k < |n.latches| && Chained(n, k)
    requires n.kind[Source(n, k)] == PI && Rises(cfg[Source(n, k)], 0, draw(0, Source(n, k)))
    ensures n.latches[k].output < n.Size()
    ensures Evaluated(n, cfg, draw, 1)[n.latches[k].output].sim.value == 1
    ensures RefVal(n, Drivers(n), cfg, draw, 1, n.latches[k].output) == 0
  {
    LatchOfOutput(n, k);
    ChainInCycle(n, cfg, draw, 0, 1, k);
  }
}
