/** What the counters of the simulator say about the values it produced, in every well-formed network. */
module SimCounters {
  import opened AceInfo
  import opened Network
  import opened Sim
  import opened SimLatches
  import opened Traces

  // ---------------------------------------------------------------- everything a node reads is defined

  predicate Live(a: Activity) {
    (a.status == NEW || a.status == OLD) && (a.value == 0 || a.value == 1)
  }

  /** Inputs, latch outputs and the first `k` logic nodes that do not hold a live bit. */
  ghost function Dead(n: Net, k: nat, s: seq<Info>): set<nat>
    requires |s| == n.Size()
  {
    set o: nat | o < n.Size() && IsSignal(n.kind[o]) && Rank(n, o) <= k && !Live(s[o].sim)
  }

  ghost predicate Defined(n: Net, k: nat, s: seq<Info>)
  {
    |s| == n.Size() && Dead(n, k, s) == {}
  }

  lemma DefinedAt(n: Net, k: nat, s: seq<Info>, o: nat)
    requires Defined(n, k, s) && o < n.Size() && IsSignal(n.kind[o]) && Rank(n, o) <= k
    ensures Live(s[o].sim)
  {
    assert o !in Dead(n, k, s);
  }

  /** Before a cycle: latch outputs are live, inputs and nodes are live or still in their reset state. */
  ghost predicate Fit(k: Kind, a: Activity) {
    Live(a) || (k != BO && a == Activity(UNDEF, 0, 0, 0))
  }

  ghost function Unfit(n: Net, s: seq<Info>): set<nat>
    requires |s| == n.Size()
  {
    set o: nat | o < n.Size() && IsSignal(n.kind[o]) && !Fit(n.kind[o], s[o].sim)
  }

  ghost predicate Ready(n: Net, s: seq<Info>) {
    |s| == n.Size() && Unfit(n, s) == {}
  }

  lemma ReadyAt(n: Net, s: seq<Info>, o: nat)
    requires Ready(n, s) && o < n.Size() && IsSignal(n.kind[o])
    ensures Fit(n.kind[o], s[o].sim)
  {
    assert o !in Unfit(n, s);
  }

  lemma DefinedStep(n: Net, k: nat, s: seq<Info>)
    requires k < |n.dfs| && Defined(n, k, s) && Ready(n, s)
    ensures Local(n, n.dfs[k]) && Defined(n, k + 1, NodeUpdate(n, s, n.dfs[k])) && Ready(n, NodeUpdate(n, s, n.dfs[k]))
  {
    var o := n.dfs[k];
    assert Local(n, o) && Rank(n, o) == k + 1;
    ReadyAt(n, s, o);
    NodeReadsLive(n, s, o);
    var u := NodeUpdate(n, s, o);
    forall p: nat | p < n.Size() && IsSignal(n.kind[p]) && Rank(n, p) <= k + 1 ensures Live(u[p].sim) {
      if p != o {
        assert Rank(n, p) != k + 1;
        DefinedAt(n, k, s, p);
      }
    }
    forall p: nat | p < n.Size() && IsSignal(n.kind[p]) ensures Fit(n.kind[p], u[p].sim) {
      ReadyAt(n, s, p);
    }
  }

  /** A node whose fanins are live gets a live record, and counts its new value exactly once. */
  lemma NodeReadsLive(n: Net, s: seq<Info>, o: nat)
    requires |s| == n.Size() && o < n.Size() && n.kind[o] == NODE
    requires Defined(n, Rank(n, o) - 1, s) && Fit(NODE, s[o].sim)
    ensures Local(n, o)
    ensures var a, b := s[o].sim, NodeStep(n, s, o);
            Live(b) && Marks(a, b) && b.numOnes == a.numOnes + b.value
            && b.numToggles == a.numToggles + if a.status != UNDEF && b.value != a.value then 1 else 0
  {
    assert Local(n, o);
    forall x: nat | x < |n.fanins[o]| ensures Live(s[n.fanins[o][x]].sim) {
      FaninsRankLower(n, o, x);
      DefinedAt(n, Rank(n, o) - 1, s, n.fanins[o][x]);
    }
    assert FaninStatus(n, s, o) != UNDEF;
  }

  lemma {:induction false} NodeUntouched(n: Net, s: seq<Info>, k: nat, o: nat)
    requires |s| == n.Size() && k <= |n.dfs| && o < n.Size() && (n.kind[o] != NODE || k < Rank(n, o))
    ensures NodeStage(n, s, k)[o] == s[o]
  {
    if k > 0 {
      NodeUntouched(n, s, k - 1, o);
      assert Rank(n, n.dfs[k - 1]) == k;
    }
  }

  lemma DefinedAfter(n: Net, s: seq<Info>, k: nat)
    requires k <= |n.dfs| && Defined(n, 0, s) && Ready(n, s)
    ensures Defined(n, k, NodeStage(n, s, k))
  {
    var inv := (i: nat, u: seq<Info>) => Defined(n, i, u) && Ready(n, u);
    forall i: nat, u: seq<Info> | i < k && |u| == n.Size() && inv(i, u)
      ensures n.dfs[i] < n.Size() && Local(n, n.dfs[i]) && inv(i + 1, NodeUpdate(n, u, n.dfs[i]))
    {
      ReadyAt(n, u, n.dfs[i]);
      DefinedStep(n, i, u);
    }
    NodeInduction(n, s, k, inv);
  }

  lemma {:induction false} NodeOutcome(n: Net, s: seq<Info>, k: nat, o: nat)
    requires |s| == n.Size() && k <= |n.dfs| && o < n.Size() && n.kind[o] == NODE && Rank(n, o) <= k
    ensures Local(n, o) && NodeStage(n, s, k)[o].sim == NodeStep(n, NodeStage(n, s, Rank(n, o) - 1), o)
  {
    assert Local(n, o);
    if Rank(n, o) < k {
      NodeOutcome(n, s, k - 1, o);
      assert Rank(n, n.dfs[k - 1]) == k;
    }
  }

  /** OLD means the value has not changed; NEW means it has, or is the first. */
  ghost predicate Marks(a: Activity, b: Activity) {
    (b.status == OLD ==> b.value == a.value) && (b.status == NEW ==> a.status == UNDEF || b.value != a.value)
  }

  /** One evaluation: each node ends live, counts its value, and counts a toggle only against an earlier value. */
  lemma EvaluationCounts(n: Net, s: seq<Info>, o: nat)
    requires Ready(n, s) && Defined(n, 0, s) && o < n.Size() && n.kind[o] == NODE
    ensures var a, b := s[o].sim, NodeStage(n, s, |n.dfs|)[o].sim;
            Live(b) && Marks(a, b) && b.numOnes == a.numOnes + b.value
            && b.numToggles == a.numToggles + if a.status != UNDEF && b.value != a.value then 1 else 0
  {
    var r := Rank(n, o) - 1;
    var t := NodeStage(n, s, r);
    DefinedAfter(n, s, r);
    NodeUntouched(n, s, r, o);
    ReadyAt(n, s, o);
    NodeReadsLive(n, t, o);
    NodeOutcome(n, s, |n.dfs|, o);
  }

  lemma PiStepLive(i: Info, cycle: nat, draw: real)
    requires Fit(PI, i.sim)
    ensures Counts(PI, i.sim, PiStep(i, cycle, draw)) && Marks(i.sim, PiStep(i, cycle, draw))
  {
  }

  lemma InputsLive(n: Net, s: seq<Info>, cycle: nat, draw: (nat, nat) -> real)
    requires Ready(n, s)
    ensures Ready(n, PiStage(n, s, cycle, draw)) && Defined(n, 0, PiStage(n, s, cycle, draw))
  {
    var t := PiStage(n, s, cycle, draw);
    forall o: nat | o < n.Size() && IsSignal(n.kind[o])
      ensures Fit(n.kind[o], t[o].sim) && (n.kind[o] != NODE ==> Live(t[o].sim))
    {
      ReadyAt(n, s, o);
      if n.kind[o] == PI { PiStepLive(s[o], cycle, draw(cycle, o)); }
    }
    assert forall o: nat | o < n.Size() && n.kind[o] == NODE :: Rank(n, o) > 0;
  }

  lemma LatchesLive(n: Net, s: seq<Info>, k: nat)
    requires Defined(n, |n.dfs|, s) && k <= |n.latches|
    ensures Defined(n, |n.dfs|, LatchStage(n, s, k))
  {
    var inv := (i: nat, u: seq<Info>) => Defined(n, |n.dfs|, u);
    forall i: nat, u: seq<Info> | i < k && |u| == n.Size() && inv(i, u) ensures inv(i + 1, LatchStep(n, u, i)) {
      LatchLive(n, u, i);
    }
    LatchInduction(n, s, 0, k, inv);
  }

  lemma LatchLive(n: Net, s: seq<Info>, k: nat)
    requires Defined(n, |n.dfs|, s) && k < |n.latches|
    ensures Defined(n, |n.dfs|, LatchStep(n, s, k))
  {
    var l := n.latches[k];
    assert LatchWired(n, l);
    DefinedAt(n, |n.dfs|, s, l.driver);
    forall o: nat | o < n.Size() && IsSignal(n.kind[o]) ensures Live(LatchStep(n, s, k)[o].sim) {
      DefinedAt(n, |n.dfs|, s, o);
    }
  }

  lemma DefinedIsReady(n: Net, s: seq<Info>)
    requires Defined(n, |n.dfs|, s)
    ensures Ready(n, s)
  {
  }

  lemma CycleReady(n: Net, s: seq<Info>, t: nat, draw: (nat, nat) -> real)
    requires Ready(n, s)
    ensures Ready(n, Cycle(n, s, t, draw))
  {
    var p := PiStage(n, s, t, draw);
    InputsLive(n, s, t, draw);
    DefinedAfter(n, p, |n.dfs|);
    LatchesLive(n, NodeStage(n, p, |n.dfs|), |n.latches|);
    DefinedIsReady(n, Cycle(n, s, t, draw));
  }

  lemma RunReady(n: Net, cfg: seq<Info>, draw: (nat, nat) -> real, t: nat)
    requires |cfg| == n.Size()
    ensures Ready(n, Run(n, cfg, draw, t))
  {
    var inv := (i: nat, s: seq<Info>) => Ready(n, s);
    assert Unfit(n, Reset(n, cfg)) == {};
    forall i: nat, s: seq<Info> | |s| == n.Size() && inv(i, s) ensures inv(i + 1, Cycle(n, s, i, draw)) {
      CycleReady(n, s, i, draw);
    }
    RunInduction(n, cfg, draw, t, inv);
  }

  lemma FaninsDefinedAt(n: Net, s: seq<Info>, k: nat, x: nat)
    requires Defined(n, 0, s) && Ready(n, s) && k < |n.dfs| && x < |n.fanins[n.dfs[k]]|
    ensures Live(NodeStage(n, s, k)[n.fanins[n.dfs[k]][x]].sim)
  {
    assert Rank(n, n.dfs[k]) == k + 1;
    FaninsRankLower(n, n.dfs[k], x);
    DefinedAfter(n, s, k);
    DefinedAt(n, k, NodeStage(n, s, k), n.fanins[n.dfs[k]][x]);
  }

  /** In every cycle, whatever a logic node reads when its turn comes is defined. */
  lemma FaninsDefined(n: Net, cfg: seq<Info>, draw: (nat, nat) -> real, t: nat, k: nat, x: nat)
    requires |cfg| == n.Size() && k < |n.dfs| && x < |n.fanins[n.dfs[k]]|
    ensures Live(NodeStage(n, PiStage(n, Run(n, cfg, draw, t), t, draw), k)[n.fanins[n.dfs[k]][x]].sim)
  {
    RunReady(n, cfg, draw, t);
    InputsLive(n, Run(n, cfg, draw, t), t, draw);
    FaninsDefinedAt(n, PiStage(n, Run(n, cfg, draw, t), t, draw), k, x);
  }

  // ---------------------------------------------------------------- counters and traces

  /** The values the simulator itself produced for `o` in the first `t` cycles. */
  ghost function SimTrace(n: Net, cfg: seq<Info>, draw: (nat, nat) -> real, t: nat, o: nat): (s: seq<int>)
    requires |cfg| == n.Size() && o < n.Size()
    ensures |s| == t
  {
    seq(t, i requires 0 <= i < t => Evaluated(n, cfg, draw, i)[o].sim.value)
  }

  lemma CarriedOver(n: Net, cfg: seq<Info>, draw: (nat, nat) -> real, t: nat, o: nat)
    requires |cfg| == n.Size() && o < n.Size() && n.kind[o] in {PI, NODE}
    ensures Run(n, cfg, draw, t + 1)[o] == Evaluated(n, cfg, draw, t)[o]
    ensures Run(n, cfg, draw, 0)[o].sim == Activity(UNDEF, 0, 0, 0)
  {
    OnlyLatchObjectsMove(n, Evaluated(n, cfg, draw, t), |n.latches|, o);
  }

  /** One cycle of an input or a node, seen from its own record. */
  ghost predicate Counts(k: Kind, a: Activity, b: Activity) {
    && Live(b) && b.numOnes == a.numOnes + b.value
    && b.numToggles == a.numToggles +
         if a.status == UNDEF then (if k == PI then b.value else 0) else if b.value != a.value then 1 else 0
  }

  lemma StagesCount(n: Net, s: seq<Info>, t: nat, draw: (nat, nat) -> real, o: nat)
    requires Ready(n, s) && o < n.Size() && n.kind[o] in {PI, NODE}
    ensures Counts(n.kind[o], s[o].sim, NodeStage(n, PiStage(n, s, t, draw), |n.dfs|)[o].sim)
    ensures Marks(s[o].sim, NodeStage(n, PiStage(n, s, t, draw), |n.dfs|)[o].sim)
  {
    InputsLive(n, s, t, draw);
    ReadyAt(n, s, o);
    if n.kind[o] == NODE {
      EvaluationCounts(n, PiStage(n, s, t, draw), o);
    } else {
      NodeUntouched(n, PiStage(n, s, t, draw), |n.dfs|, o);
      PiStepLive(s[o], t, draw(t, o));
    }
  }

  lemma CycleCounts(n: Net, cfg: seq<Info>, draw: (nat, nat) -> real, t: nat, o: nat)
    requires |cfg| == n.Size() && o < n.Size() && n.kind[o] in {PI, NODE}
    ensures Counts(n.kind[o], Run(n, cfg, draw, t)[o].sim, Evaluated(n, cfg, draw, t)[o].sim)
    ensures Marks(Run(n, cfg, draw, t)[o].sim, Evaluated(n, cfg, draw, t)[o].sim)
  {
    RunReady(n, cfg, draw, t);
    StagesCount(n, Run(n, cfg, draw, t), t, draw, o);
  }

  /** The record that a stream of values leaves behind. */
  ghost function TraceRecord(k: Kind, status: Status, s: seq<int>): Activity
    requires s != []
  {
    Activity(status, s[|s| - 1], CountOnes(s), Changes(s) + if k == PI then s[0] else 0)
  }

  ghost predicate Matches(k: Kind, a: Activity, s: seq<int>) {
    s != [] && Bits(s) && a.status in {NEW, OLD} && a == TraceRecord(k, a.status, s)
  }

  lemma MatchesFirst(k: Kind, b: Activity)
    requires Counts(k, Activity(UNDEF, 0, 0, 0), b)
    ensures Matches(k, b, [b.value])
  {
    CountOnesAppend([], b.value);
    assert [] + [b.value] == [b.value];
  }

  lemma MatchesNext(k: Kind, a: Activity, b: Activity, s: seq<int>)
    requires Matches(k, a, s) && Counts(k, a, b)
    ensures Matches(k, b, s + [b.value])
  {
  }

  /** A stream of records that each count one more cycle has, at every point, the counters of its values. */
  lemma {:induction false} CountersOfStream(k: Kind, act: nat -> Activity, t: nat)
    requires Counts(k, Activity(UNDEF, 0, 0, 0), act(0)) && forall i: nat :: Counts(k, act(i), act(i + 1))
    ensures Matches(k, act(t), seq(t + 1, i requires 0 <= i <= t => act(i).value))
  {
    var s := seq(t, i requires 0 <= i < t => act(i).value);
    assert seq(t + 1, i requires 0 <= i <= t => act(i).value) == s + [act(t).value];
    if t == 0 {
      MatchesFirst(k, act(0));
      assert s + [act(t).value] == [act(0).value];
    } else {
      CountersOfStream(k, act, t - 1);
      assert s == seq(t - 1 + 1, i requires 0 <= i <= t - 1 => act(i).value);
      assert Counts(k, act(t - 1), act(t - 1 + 1));
      MatchesNext(k, act(t - 1), act(t), s);
    }
  }

  lemma NextCounts(n: Net, cfg: seq<Info>, draw: (nat, nat) -> real, t: nat, o: nat)
    requires |cfg| == n.Size() && o < n.Size() && n.kind[o] in {PI, NODE}
    ensures Counts(n.kind[o], Evaluated(n, cfg, draw, t)[o].sim, Evaluated(n, cfg, draw, t + 1)[o].sim)
    ensures Marks(Evaluated(n, cfg, draw, t)[o].sim, Evaluated(n, cfg, draw, t + 1)[o].sim)
  {
    CarriedOver(n, cfg, draw, t, o);
    CycleCounts(n, cfg, draw, t + 1, o);
  }

  lemma FirstCounts(n: Net, cfg: seq<Info>, draw: (nat, nat) -> real, o: nat)
    requires |cfg| == n.Size() && o < n.Size() && n.kind[o] in {PI, NODE}
    ensures Counts(n.kind[o], Activity(UNDEF, 0, 0, 0), Evaluated(n, cfg, draw, 0)[o].sim)
  {
    CarriedOver(n, cfg, draw, 0, o);
    CycleCounts(n, cfg, draw, 0, o);
  }

  lemma RunCounts(n: Net, cfg: seq<Info>, draw: (nat, nat) -> real, o: nat, act: nat -> Activity)
    requires |cfg| == n.Size() && o < n.Size() && n.kind[o] in {PI, NODE}
    requires forall i: nat :: act(i) == Evaluated(n, cfg, draw, i)[o].sim
    ensures Counts(n.kind[o], Activity(UNDEF, 0, 0, 0), act(0))
    ensures forall i: nat :: Counts(n.kind[o], act(i), act(i + 1))
  {
    FirstCounts(n, cfg, draw, o);
    forall i: nat ensures Counts(n.kind[o], act(i), act(i + 1)) {
      NextCounts(n, cfg, draw, i, o);
    }
  }

  /** num_ones counts the cycles with value 1; num_toggles counts the changes, and for an input also a first 1. */
  lemma CountersAreExact(n: Net, cfg: seq<Info>, draw: (nat, nat) -> real, t: nat, o: nat)
    requires |cfg| == n.Size() && o < n.Size() && n.kind[o] in {PI, NODE}
    ensures Matches(n.kind[o], Evaluated(n, cfg, draw, t)[o].sim, SimTrace(n, cfg, draw, t + 1, o))
  {
    var act := (i: nat) => Evaluated(n, cfg, draw, i)[o].sim;
    RunCounts(n, cfg, draw, o, act);
    CountersOfStream(n.kind[o], act, t);
    assert SimTrace(n, cfg, draw, t + 1, o) == seq(t + 1, i requires 0 <= i <= t => act(i).value);
  }

  // ---------------------------------------------------------------- statuses

  /** A latch output shows the record that its source had in the cycle before. */
  lemma OutputFollows(n: Net, cfg: seq<Info>, draw: (nat, nat) -> real, t: nat, o: nat)
    requires |cfg| == n.Size() && o < n.Size() && n.kind[o] == BO
    ensures Evaluated(n, cfg, draw, t + 1)[o].sim == Evaluated(n, cfg, draw, t)[Source(n, LatchOf(n, o))].sim
  {
    LatchShowsSource(n, Evaluated(n, cfg, draw, t), LatchOf(n, o), o);
    NodeUntouched(n, PiStage(n, Run(n, cfg, draw, t + 1), t + 1, draw), |n.dfs|, o);
  }

  lemma OutputFirst(n: Net, cfg: seq<Info>, draw: (nat, nat) -> real, o: nat)
    requires |cfg| == n.Size() && o < n.Size() && n.kind[o] == BO
    ensures Evaluated(n, cfg, draw, 0)[o].sim == Activity(NEW, 0, 0, 0)
  {
    NodeUntouched(n, PiStage(n, Run(n, cfg, draw, 0), 0, draw), |n.dfs|, o);
  }

  ghost predicate FollowsAt(n: Net, act: (nat, nat) -> Activity, i: nat, o: nat)
    requires o < n.Size()
  {
    if n.kind[o] == BO then act(i + 1, o) == act(i, Source(n, LatchOf(n, o))) else Marks(act(i, o), act(i + 1, o))
  }

  ghost predicate FirstAt(n: Net, act: (nat, nat) -> Activity, o: nat)
    requires o < n.Size()
  {
    if n.kind[o] == BO then act(0, o) == Activity(NEW, 0, 0, 0) else Marks(Activity(UNDEF, 0, 0, 0), act(0, o))
  }

  /** Streams of records in which inputs and nodes mark their changes and latch outputs follow their sources. */
  ghost predicate Follows(n: Net, act: (nat, nat) -> Activity) {
    && (forall i: nat, o: nat {:trigger FollowsAt(n, act, i, o)} | o < n.Size() && IsSignal(n.kind[o]) ::
      FollowsAt(n, act, i, o))
    && (forall o: nat {:trigger FirstAt(n, act, o)} | o < n.Size() && IsSignal(n.kind[o]) :: FirstAt(n, act, o))
  }

  lemma {:induction false} OldInStream(n: Net, act: (nat, nat) -> Activity, t: nat, o: nat)
    requires Follows(n, act) && o < n.Size() && IsSignal(n.kind[o]) && act(t, o).status == OLD
    ensures act(t, o).value == if t == 0 then 0 else act(t - 1, o).value
    decreases t
  {
    assert FirstAt(n, act, o);
    if t > 0 {
      assert FollowsAt(n, act, t - 1, o);
      if n.kind[o] == BO {
        OldInStream(n, act, t - 1, Source(n, LatchOf(n, o)));
        assert t > 1 ==> FollowsAt(n, act, t - 2, o);
      }
    }
  }

  ghost function Records(n: Net, cfg: seq<Info>, draw: (nat, nat) -> real): (nat, nat) -> Activity
    requires |cfg| == n.Size()
  {
    (i: nat, o: nat) => if o < n.Size() then Evaluated(n, cfg, draw, i)[o].sim else Activity(UNDEF, 0, 0, 0)
  }

  lemma OutputRecordsFollow(n: Net, cfg: seq<Info>, draw: (nat, nat) -> real, i: nat, o: nat)
    requires |cfg| == n.Size() && o < n.Size() && n.kind[o] == BO
    ensures Records(n, cfg, draw)(i + 1, o) == Records(n, cfg, draw)(i, Source(n, LatchOf(n, o)))
  {
    OutputFollows(n, cfg, draw, i, o);
  }

  lemma OtherRecordsMark(n: Net, cfg: seq<Info>, draw: (nat, nat) -> real, i: nat, o: nat)
    requires |cfg| == n.Size() && o < n.Size() && n.kind[o] in {PI, NODE}
    ensures Marks(Records(n, cfg, draw)(i, o), Records(n, cfg, draw)(i + 1, o))
  {
    NextCounts(n, cfg, draw, i, o);
  }

  lemma RecordsFollow(n: Net, cfg: seq<Info>, draw: (nat, nat) -> real, i: nat, o: nat)
    requires |cfg| == n.Size() && o < n.Size() && IsSignal(n.kind[o])
    ensures FollowsAt(n, Records(n, cfg, draw), i, o)
  {
    if n.kind[o] == BO {
      OutputRecordsFollow(n, cfg, draw, i, o);
    } else {
      OtherRecordsMark(n, cfg, draw, i, o);
    }
  }

  lemma RecordsStart(n: Net, cfg: seq<Info>, draw: (nat, nat) -> real, o: nat)
    requires |cfg| == n.Size() && o < n.Size() && IsSignal(n.kind[o])
    ensures FirstAt(n, Records(n, cfg, draw), o)
  {
    if n.kind[o] == BO {
      OutputFirst(n, cfg, draw, o);
    } else {
      CarriedOver(n, cfg, draw, 0, o);
      CycleCounts(n, cfg, draw, 0, o);
    }
  }

  lemma RunFollows(n: Net, cfg: seq<Info>, draw: (nat, nat) -> real)
    requires |cfg| == n.Size()
    ensures Follows(n, Records(n, cfg, draw))
  {
    forall i: nat, o: nat | o < n.Size() && IsSignal(n.kind[o]) ensures FollowsAt(n, Records(n, cfg, draw), i, o) {
      RecordsFollow(n, cfg, draw, i, o);
    }
    forall o: nat | o < n.Size() && IsSignal(n.kind[o]) ensures FirstAt(n, Records(n, cfg, draw), o) {
      RecordsStart(n, cfg, draw, o);
    }
  }

  /** In every network and run, OLD means that the value is that of the previous cycle (0 before the first). */
  lemma OldMeansUnchanged(n: Net, cfg: seq<Info>, draw: (nat, nat) -> real, t: nat, o: nat)
    requires |cfg| == n.Size() && o < n.Size() && IsSignal(n.kind[o]) && Evaluated(n, cfg, draw, t)[o].sim.status == OLD
    ensures Evaluated(n, cfg, draw, t)[o].sim.value == if t == 0 then 0 else Evaluated(n, cfg, draw, t - 1)[o].sim.value
  {
    var act := Records(n, cfg, draw);
    assert act(t, o) == Evaluated(n, cfg, draw, t)[o].sim;
    assert t > 0 ==> act(t - 1, o) == Evaluated(n, cfg, draw, t - 1)[o].sim;
    RunFollows(n, cfg, draw);
    OldInStream(n, act, t, o);
  }
}
