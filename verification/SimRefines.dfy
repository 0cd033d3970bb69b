/** The event-driven simulator refines the synchronous one: `RefVal` re-evaluates everything in every cycle. */
module SimRefines {
  import opened AceInfo
  import opened Bdd
  import opened Network
  import opened Sim
  import opened Traces

  // ---------------------------------------------------------------- the synchronous reference

  /** The signal that latch output `o` shows one cycle later, if `src` lists one for every object. */
  ghost function DriverOf(n: Net, src: seq<nat>, o: nat): (d: nat)
    requires o < n.Size() && n.kind[o] == BO
    ensures d < n.Size() && IsSignal(n.kind[d])
  {
    if o < |src| && src[o] < n.Size() && IsSignal(n.kind[src[o]]) then src[o] else o
  }

  /** The value of signal `o` in cycle `t`: an input follows its stimulus, a latch output shows its driver one
      cycle later (0 at first), a logic node applies its function to its fanins. */
  ghost function RefVal(n: Net, src: seq<nat>, cfg: seq<Info>, draw: (nat, nat) -> real, t: nat, o: nat): (v: int)
    requires |cfg| == n.Size() && o < n.Size()
    ensures v == 0 || v == 1
    decreases t, Rank(n, o), 1
  {
    match n.kind[o]
    case PI =>
      if t == 0 || RefVal(n, src, cfg, draw, t - 1, o) == 0 then Bit(Rises(cfg[o], t, draw(t, o)))
      else Bit(!Falls(cfg[o], t, draw(t, o)))
    case BO => if t == 0 then 0 else RefVal(n, src, cfg, draw, t - 1, DriverOf(n, src, o))
    case NODE =>
      assert Local(n, o);
      Bit(Eval(n.pData[o], Booleans(RefFanins(n, src, cfg, draw, t, o))))
    case _ => 0
  }

  ghost function RefFanins(n: Net, src: seq<nat>, cfg: seq<Info>, draw: (nat, nat) -> real, t: nat,
                           o: nat): (s: seq<int>)
    requires |cfg| == n.Size() && o < n.Size() && n.kind[o] == NODE
    ensures |s| == |n.fanins[o]|
    decreases t, Rank(n, o), 0
  {
    seq(|n.fanins[o]|, x requires 0 <= x < |n.fanins[o]| =>
      (FaninsRankLower(n, o, x); RefVal(n, src, cfg, draw, t, n.fanins[o][x])))
  }

  /** The values in the first `t` cycles. */
  ghost function Trace(n: Net, src: seq<nat>, cfg: seq<Info>, draw: (nat, nat) -> real, t: nat, o: nat): (s: seq<int>)
    requires |cfg| == n.Size() && o < n.Size()
    ensures |s| == t && Bits(s)
  {
    seq(t, i requires 0 <= i < t => RefVal(n, src, cfg, draw, i, o))
  }

  lemma TraceStep(n: Net, src: seq<nat>, cfg: seq<Info>, draw: (nat, nat) -> real, t: nat, o: nat)
    requires |cfg| == n.Size() && o < n.Size()
    ensures var s, v := Trace(n, src, cfg, draw, t, o), RefVal(n, src, cfg, draw, t, o);
            && CountOnes(Trace(n, src, cfg, draw, t + 1, o)) == CountOnes(s) + v
            && (t == 0 ==> Changes(Trace(n, src, cfg, draw, t + 1, o)) == 0)
            && (t > 0 ==> Changes(Trace(n, src, cfg, draw, t + 1, o)) ==
                          Changes(s) + if v != RefVal(n, src, cfg, draw, t - 1, o) then 1 else 0)
  {
    var s, v := Trace(n, src, cfg, draw, t, o), RefVal(n, src, cfg, draw, t, o);
    assert Trace(n, src, cfg, draw, t + 1, o) == s + [v];
    CountOnesAppend(s, v);
    if t > 0 { ChangesAppend(s, v); }
  }

  // ---------------------------------------------------------------- nodes that no event reaches

  /** A logic node with no input or latch output in its cone. */
  ghost predicate SourceFree(n: Net, o: nat)
    requires o < n.Size()
    decreases Rank(n, o)
  {
    n.kind[o] == NODE && forall x: nat | x < |n.fanins[o]| :: (FaninsRankLower(n, o, x); SourceFree(n, n.fanins[o][x]))
  }

  /** The constant such a node stands for. */
  ghost function ConstVal(n: Net, o: nat): int
    requires o < n.Size() && SourceFree(n, o)
    decreases Rank(n, o), 1
  {
    assert Local(n, o);
    Bit(Eval(n.pData[o], Booleans(ConstFanins(n, o))))
  }

  ghost function ConstFanins(n: Net, o: nat): (s: seq<int>)
    requires o < n.Size() && SourceFree(n, o)
    ensures |s| == |n.fanins[o]|
    decreases Rank(n, o), 0
  {
    seq(|n.fanins[o]|, x requires 0 <= x < |n.fanins[o]| => (FaninsRankLower(n, o, x); ConstVal(n, n.fanins[o][x])))
  }

  lemma {:induction false} SourceFreeIsConstant(n: Net, src: seq<nat>, cfg: seq<Info>, draw: (nat, nat) -> real, t: nat,
                                                o: nat)
    requires |cfg| == n.Size() && o < n.Size() && SourceFree(n, o)
    ensures RefVal(n, src, cfg, draw, t, o) == ConstVal(n, o)
    decreases Rank(n, o)
  {
    forall x: nat | x < |n.fanins[o]| ensures RefFanins(n, src, cfg, draw, t, o)[x] == ConstFanins(n, o)[x] {
      FaninsRankLower(n, o, x);
      SourceFreeIsConstant(n, src, cfg, draw, t, n.fanins[o][x]);
    }
    assert RefFanins(n, src, cfg, draw, t, o) == ConstFanins(n, o);
  }

  /** Every constant node is the constant 0. */
  ghost predicate Grounded(n: Net)
  {
    forall o: nat | o < n.Size() && SourceFree(n, o) :: ConstVal(n, o) == 0
  }

  // ---------------------------------------------------------------- what the records should hold

  ghost predicate Changed(n: Net, src: seq<nat>, cfg: seq<Info>, draw: (nat, nat) -> real, t: nat, o: nat)
    requires |cfg| == n.Size() && o < n.Size()
  {
    t == 0 || RefVal(n, src, cfg, draw, t, o) != RefVal(n, src, cfg, draw, t - 1, o)
  }

  /** The record of signal `o` in cycle `t`: its value, whether it changed, and the statistics of its trace.  An input's
      first 1 counts as a toggle, a node's does not.  A latch output carries its driver's record of the cycle before. */
  ghost function Expected(n: Net, src: seq<nat>, cfg: seq<Info>, draw: (nat, nat) -> real, t: nat, o: nat): Activity
    requires |cfg| == n.Size() && o < n.Size()
    decreases t
  {
    var v := RefVal(n, src, cfg, draw, t, o);
    var s := Trace(n, src, cfg, draw, t + 1, o);
    match n.kind[o]
    case PI => Activity(if Changed(n, src, cfg, draw, t, o) then NEW else OLD, v, CountOnes(s), Changes(s) + s[0])
    case BO => if t == 0 then Activity(NEW, 0, 0, 0) else Expected(n, src, cfg, draw, t - 1, DriverOf(n, src, o))
    case _ =>
      Activity(if Changed(n, src, cfg, draw, t, o) && !SourceFree(n, o) then NEW else OLD, v, CountOnes(s), Changes(s))
  }

  /** The same record before the evaluation of cycle `t`. */
  ghost function Before(n: Net, src: seq<nat>, cfg: seq<Info>, draw: (nat, nat) -> real, t: nat, o: nat): Activity
    requires |cfg| == n.Size() && o < n.Size()
  {
    if n.kind[o] == BO then Expected(n, src, cfg, draw, t, o)
    else if t == 0 then Activity(UNDEF, 0, 0, 0)
    else Expected(n, src, cfg, draw, t - 1, o)
  }

  lemma {:induction false} ExpectedBasics(n: Net, src: seq<nat>, cfg: seq<Info>, draw: (nat, nat) -> real, t: nat,
                                          o: nat)
    requires |cfg| == n.Size() && o < n.Size()
    ensures Expected(n, src, cfg, draw, t, o).value == RefVal(n, src, cfg, draw, t, o)
    ensures Expected(n, src, cfg, draw, t, o).status in {NEW, OLD}
    decreases t
  {
    if n.kind[o] == BO && t > 0 {
      ExpectedBasics(n, src, cfg, draw, t - 1, DriverOf(n, src, o));
    }
  }

  /** In the reference OLD means unchanged since the previous cycle, or a node that nothing ever reaches. */
  lemma {:induction false} ExpectedOldIsUnchanged(n: Net, src: seq<nat>, cfg: seq<Info>, draw: (nat, nat) -> real,
                                                  t: nat,
                                             o: nat)
    requires |cfg| == n.Size() && o < n.Size() && IsSignal(n.kind[o]) && Grounded(n)
    requires Expected(n, src, cfg, draw, t, o).status == OLD
    ensures if t > 0 then RefVal(n, src, cfg, draw, t, o) == RefVal(n, src, cfg, draw, t - 1, o) else SourceFree(n, o)
    decreases t
  {
    if n.kind[o] == BO && t > 0 {
      ExpectedOldIsUnchanged(n, src, cfg, draw, t - 1, DriverOf(n, src, o));
      if t == 1 {
        SourceFreeIsConstant(n, src, cfg, draw, 0, DriverOf(n, src, o));
      }
    } else if t > 0 && SourceFree(n, o) {
      SourceFreeIsConstant(n, src, cfg, draw, t, o);
      SourceFreeIsConstant(n, src, cfg, draw, t - 1, o);
    }
  }

  // ---------------------------------------------------------------- one step of each stage

  lemma ExpectedFirst(n: Net, src: seq<nat>, cfg: seq<Info>, draw: (nat, nat) -> real, o: nat)
    requires |cfg| == n.Size() && o < n.Size() && n.kind[o] in {PI, NODE}
    ensures var v := RefVal(n, src, cfg, draw, 0, o);
            Expected(n, src, cfg, draw, 0, o)
            == Activity(if SourceFree(n, o) then OLD else NEW, v, v, if n.kind[o] == PI then v else 0)
  {
    TraceStep(n, src, cfg, draw, 0, o);
    assert CountOnes(Trace(n, src, cfg, draw, 0, o)) == 0;
  }

  lemma ExpectedNext(n: Net, src: seq<nat>, cfg: seq<Info>, draw: (nat, nat) -> real, t: nat, o: nat)
    requires |cfg| == n.Size() && o < n.Size() && n.kind[o] in {PI, NODE} && t > 0
    ensures var v, a := RefVal(n, src, cfg, draw, t, o), Expected(n, src, cfg, draw, t - 1, o);
            Expected(n, src, cfg, draw, t, o)
            == Activity(if v != a.value && !SourceFree(n, o) then NEW else OLD, v, a.numOnes + v,
                        a.numToggles + if v != a.value then 1 else 0)
  {
    TraceStep(n, src, cfg, draw, t, o);
    assert Trace(n, src, cfg, draw, t + 1, o)[0] == Trace(n, src, cfg, draw, t, o)[0];
  }

  lemma PiStepIsExpected(n: Net, src: seq<nat>, cfg: seq<Info>, draw: (nat, nat) -> real, t: nat, o: nat)
    requires |cfg| == n.Size() && o < n.Size() && n.kind[o] == PI
    ensures PiStep(cfg[o].(sim := Before(n, src, cfg, draw, t, o)), t, draw(t, o)) == Expected(n, src, cfg, draw, t, o)
  {
    if t == 0 {
      ExpectedFirst(n, src, cfg, draw, o);
    } else {
      ExpectedBasics(n, src, cfg, draw, t - 1, o);
      ExpectedNext(n, src, cfg, draw, t, o);
    }
  }

  lemma NodeValueIsRefVal(n: Net, src: seq<nat>, cfg: seq<Info>, draw: (nat, nat) -> real, t: nat, s: seq<Info>, o: nat)
    requires |cfg| == |s| == n.Size() && o < n.Size() && n.kind[o] == NODE
    requires forall x: nat | x < |n.fanins[o]| ::
             s[n.fanins[o][x]].sim == Expected(n, src, cfg, draw, t, n.fanins[o][x])
    ensures Local(n, o) && NodeValue(n, s, o) == RefVal(n, src, cfg, draw, t, o)
  {
    forall x: nat | x < |n.fanins[o]|
      ensures s[n.fanins[o][x]].sim.value == RefVal(n, src, cfg, draw, t, n.fanins[o][x])
    {
      ExpectedBasics(n, src, cfg, draw, t, n.fanins[o][x]);
    }
    assert Local(n, o);
    assert FaninValues(n, s, o) == RefFanins(n, src, cfg, draw, t, o);
  }

  lemma UnchangedFanins(n: Net, src: seq<nat>, cfg: seq<Info>, draw: (nat, nat) -> real, t: nat, o: nat)
    requires |cfg| == n.Size() && o < n.Size() && n.kind[o] == NODE && t > 0
    requires forall x: nat | x < |n.fanins[o]| ::
               RefVal(n, src, cfg, draw, t, n.fanins[o][x]) == RefVal(n, src, cfg, draw, t - 1, n.fanins[o][x])
    ensures RefVal(n, src, cfg, draw, t, o) == RefVal(n, src, cfg, draw, t - 1, o)
  {
    assert RefFanins(n, src, cfg, draw, t, o) == RefFanins(n, src, cfg, draw, t - 1, o);
  }

  /** A node none of whose fanins is NEW may keep its value. */
  lemma QuietNode(n: Net, src: seq<nat>, cfg: seq<Info>, draw: (nat, nat) -> real, t: nat, o: nat)
    requires |cfg| == n.Size() && o < n.Size() && n.kind[o] == NODE && Grounded(n)
    requires forall x: nat | x < |n.fanins[o]| :: Expected(n, src, cfg, draw, t, n.fanins[o][x]).status == OLD
    ensures if t > 0 then RefVal(n, src, cfg, draw, t, o) == RefVal(n, src, cfg, draw, t - 1, o)
            else SourceFree(n, o) && RefVal(n, src, cfg, draw, t, o) == 0
  {
    forall x: nat | x < |n.fanins[o]|
      ensures FaninEarlier(n, Rank(n, o) - 1, x)
      ensures if t > 0
              then RefVal(n, src, cfg, draw, t, n.fanins[o][x]) == RefVal(n, src, cfg, draw, t - 1, n.fanins[o][x])
              else SourceFree(n, n.fanins[o][x])
    {
      assert FaninEarlier(n, Rank(n, o) - 1, x);
      ExpectedOldIsUnchanged(n, src, cfg, draw, t, n.fanins[o][x]);
    }
    if t > 0 {
      UnchangedFanins(n, src, cfg, draw, t, o);
    } else {
      SourceFreeIsConstant(n, src, cfg, draw, t, o);
    }
  }

  lemma SourceFreeFaninsOld(n: Net, src: seq<nat>, cfg: seq<Info>, draw: (nat, nat) -> real, t: nat, o: nat, x: nat)
    requires |cfg| == n.Size() && o < n.Size() && SourceFree(n, o) && x < |n.fanins[o]|
    ensures Expected(n, src, cfg, draw, t, n.fanins[o][x]).status == OLD
  {
  }

  lemma QuietNodeKeeps(n: Net, src: seq<nat>, cfg: seq<Info>, draw: (nat, nat) -> real, t: nat, o: nat)
    requires |cfg| == n.Size() && o < n.Size() && n.kind[o] == NODE && Grounded(n)
    requires forall x: nat | x < |n.fanins[o]| :: Expected(n, src, cfg, draw, t, n.fanins[o][x]).status == OLD
    ensures var a := Before(n, src, cfg, draw, t, o);
            Expected(n, src, cfg, draw, t, o) == a.(status := OLD, numOnes := a.numOnes + a.value)
  {
    QuietNode(n, src, cfg, draw, t, o);
    if t == 0 {
      ExpectedFirst(n, src, cfg, draw, o);
    } else {
      ExpectedBasics(n, src, cfg, draw, t - 1, o);
      ExpectedNext(n, src, cfg, draw, t, o);
    }
  }

  lemma BusyNodeSettles(n: Net, src: seq<nat>, cfg: seq<Info>, draw: (nat, nat) -> real, t: nat, o: nat, x: nat)
    requires |cfg| == n.Size() && o < n.Size() && n.kind[o] == NODE && x < |n.fanins[o]|
    requires Expected(n, src, cfg, draw, t, n.fanins[o][x]).status == NEW
    ensures Expected(n, src, cfg, draw, t, o)
            == Settle(Before(n, src, cfg, draw, t, o), RefVal(n, src, cfg, draw, t, o))
  {
    assert !SourceFree(n, o) by {
      if SourceFree(n, o) { SourceFreeFaninsOld(n, src, cfg, draw, t, o, x); }
    }
    if t == 0 {
      ExpectedFirst(n, src, cfg, draw, o);
    } else {
      ExpectedBasics(n, src, cfg, draw, t - 1, o);
      ExpectedNext(n, src, cfg, draw, t, o);
    }
  }

  lemma NodeStepIsExpected(n: Net, src: seq<nat>, cfg: seq<Info>, draw: (nat, nat) -> real, t: nat, s: seq<Info>,
                           o: nat)
    requires |cfg| == |s| == n.Size() && o < n.Size() && n.kind[o] == NODE && Grounded(n)
    requires forall x: nat | x < |n.fanins[o]| ::
             s[n.fanins[o][x]].sim == Expected(n, src, cfg, draw, t, n.fanins[o][x])
    requires s[o].sim == Before(n, src, cfg, draw, t, o)
    ensures Local(n, o) && NodeStep(n, s, o) == Expected(n, src, cfg, draw, t, o)
  {
    NodeValueIsRefVal(n, src, cfg, draw, t, s, o);
    forall x: nat | x < |n.fanins[o]| ensures s[n.fanins[o][x]].sim.status in {NEW, OLD} {
      ExpectedBasics(n, src, cfg, draw, t, n.fanins[o][x]);
    }
    if x: nat :| x < |n.fanins[o]| && s[n.fanins[o][x]].sim.status == NEW {
      BusyNodeSettles(n, src, cfg, draw, t, o, x);
      assert FaninStatus(n, s, o) == NEW;
    } else {
      QuietNodeKeeps(n, src, cfg, draw, t, o);
      assert FaninStatus(n, s, o) == OLD;
    }
  }
}
