/** The event-driven simulator (ace2/sim.c): one step function per procedure, and the procedures
    themselves, which update the info records in place. */
module Sim {
  import opened AceInfo
  import opened Bdd
  import opened Network

  // ---------------------------------------------------------------- primary inputs

  function ValueAt(values: seq<int>, cycle: nat): int {
    if cycle < |values| then values[cycle] else 0
  }

  /** The input rises: the vector says 1, or the random draw is below the upward transition probability. */
  function Rises(i: Info, cycle: nat, draw: real): bool {
    if i.values.Some? then ValueAt(i.values.value, cycle) == 1 else draw < P0to1(i.staticProb, i.switchProb)
  }

  function Falls(i: Info, cycle: nat, draw: real): bool {
    if i.values.Some? then ValueAt(i.values.value, cycle) == 0 else draw < P1to0(i.staticProb, i.switchProb)
  }

  function PiStep(i: Info, cycle: nat, draw: real): Activity {
    var a := i.sim;
    if a.status == UNDEF then
      if Rises(i, cycle, draw) then Activity(NEW, 1, 1, 1) else Activity(NEW, 0, 0, 0)
    else if a.value == 0 then
      if Rises(i, cycle, draw) then Activity(NEW, 1, a.numOnes + 1, a.numToggles + 1) else a.(status := OLD)
    else
      if Falls(i, cycle, draw) then Activity(NEW, 0, a.numOnes, a.numToggles + 1)
      else a.(status := OLD, numOnes := a.numOnes + 1)
  }

  /** An input without a vector compares its draw with two thresholds: it becomes 1, from 0 or from the reset state,
      exactly below `up`, and becomes 0 from 1 exactly below `down`; otherwise it keeps its value, 0 if it was reset. */
  ghost predicate Crosses(i: Info, up: real, down: real) {
    forall a: Activity, cycle: nat, draw: real ::
      PiStep(i.(sim := a), cycle, draw).value
      == if a.status == UNDEF || a.value == 0 then (if draw < up then 1 else 0) else if draw < down then 0 else a.value
  }

  /** From probabilities that some signal has, the thresholds are those of the stationary chain with these
      probabilities.  An input that is always 1 starts with 1, and one that is always 0 leaves a 1 at once. */
  lemma DrawnInput(i: Info) returns (up: real, down: real)
    requires i.values.None? && Consistent(i.staticProb, i.switchProb)
    ensures Crosses(i, up, down) && Stationary(i.staticProb, up, down)
    ensures 0.0 < i.staticProb < 1.0 ==> (1.0 - i.staticProb) * up == i.switchProb / 2.0 == i.staticProb * down
    ensures i.staticProb == 0.0 ==> up == 0.0 && down == 1.0
    ensures i.staticProb == 1.0 ==> up == 1.0 && down == 0.0
  {
    up, down := P0to1(i.staticProb, i.switchProb), P1to0(i.staticProb, i.switchProb);
    MacrosAreStationary(i.staticProb, i.switchProb);
  }

  ghost function PiStage(n: Net, s: seq<Info>, cycle: nat, draw: (nat, nat) -> real): seq<Info>
    requires |s| == n.Size()
  {
    seq(|s|, o requires 0 <= o < |s| =>
      if n.kind[o] == PI then s[o].(sim := PiStep(s[o], cycle, draw(cycle, o))) else s[o])
  }

  /** A defined input holds a bit ("Bad value" otherwise). */
  ghost predicate PiReady(n: Net, s: seq<Info>)
    requires |s| == n.Size()
  {
    forall o | 0 <= o < |s| && n.kind[o] == PI ::
      s[o].sim.status != UNDEF ==> s[o].sim.value == 0 || s[o].sim.value == 1
  }

  /** Every input vector has an entry for each of the first `cycles` cycles. */
  ghost predicate VectorsCover(n: Net, s: seq<Info>, cycles: nat)
    requires |s| == n.Size()
  {
    forall o: nat | o < n.Size() && n.kind[o] == PI && s[o].values.Some? :: cycles <= |s[o].values.value|
  }

  /** False when an entry past the end of a vector would be read. */
  method GetPiValues(n: Net, info: array<Info>, cycle: nat, draw: (nat, nat) -> real) returns (ok: bool)
    requires info.Length == n.Size() && PiReady(n, info[..])
    modifies info
    ensures ok ==> VectorsCover(n, old(info[..]), cycle + 1) && info[..] == PiStage(n, old(info[..]), cycle, draw)
    ensures !ok ==> !VectorsCover(n, old(info[..]), cycle + 1)
  {
    for o := 0 to info.Length
      invariant forall j | 0 <= j < o :: info[j] == PiStage(n, old(info[..]), cycle, draw)[j]
      invariant forall j | o <= j < info.Length :: info[j] == old(info[..])[j]
      invariant forall j: nat | j < o && n.kind[j] == PI && old(info[..])[j].values.Some? ::
                  cycle < |old(info[..])[j].values.value|
    {
      if n.kind[o] == PI {
        assert info[o] == old(info[..])[o];
        match info[o].values {
          case Some(values) =>
            if cycle >= |values| {
              return false;
            }
            PiFromVector(info, o, values[cycle], cycle, draw(cycle, o));
          case None => PiFromDraw(info, o, cycle, draw(cycle, o));
        }
      }
    }
    return true;
  }

  method PiFromVector(info: array<Info>, o: nat, bit: int, cycle: nat, draw: real)
    requires o < info.Length && info[o].values.Some? && cycle < |info[o].values.value|
    requires bit == info[o].values.value[cycle]
    requires info[o].sim.status != UNDEF ==> info[o].sim.value == 0 || info[o].sim.value == 1
    modifies info
    ensures info[..] == old(info[..])[o := old(info[o]).(sim := PiStep(old(info[o]), cycle, draw))]
  {
    var a := info[o].sim;
    if a.status == UNDEF {
      if bit == 1 {
        a := Activity(NEW, 1, 1, 1);
      } else {
        a := Activity(NEW, 0, 0, 0);
      }
    } else if a.value == 0 {
      if bit == 1 {
        a := a.(value := 1, status := NEW, numToggles := a.numToggles + 1, numOnes := a.numOnes + 1);
      } else {
        a := a.(status := OLD);
      }
    } else {
      assert a.value == 1;
      if bit == 0 {
        a := a.(value := 0, status := NEW, numToggles := a.numToggles + 1);
      } else {
        a := a.(numOnes := a.numOnes + 1, status := OLD);
      }
    }
    info[o] := info[o].(sim := a);
  }

  method PiFromDraw(info: array<Info>, o: nat, cycle: nat, draw: real)
    requires o < info.Length && info[o].values.None?
    requires info[o].sim.status != UNDEF ==> info[o].sim.value == 0 || info[o].sim.value == 1
    modifies info
    ensures info[..] == old(info[..])[o := old(info[o]).(sim := PiStep(old(info[o]), cycle, draw))]
  {
    var a := info[o].sim;
    var prob0to1 := P0to1(info[o].staticProb, info[o].switchProb);
    var prob1to0 := P1to0(info[o].staticProb, info[o].switchProb);
    if a.status == UNDEF {
      if draw < prob0to1 {
        a := Activity(NEW, 1, 1, 1);
      } else {
        a := Activity(NEW, 0, 0, 0);
      }
    } else if a.value == 0 {
      if draw < prob0to1 {
        a := a.(value := 1, status := NEW, numToggles := a.numToggles + 1, numOnes := a.numOnes + 1);
      } else {
        a := a.(status := OLD);
      }
    } else {
      assert a.value == 1;
      if draw < prob1to0 {
        a := a.(value := 0, status := NEW, numToggles := a.numToggles + 1);
      } else {
        a := a.(numOnes := a.numOnes + 1, status := OLD);
      }
    }
    info[o] := info[o].(sim := a);
  }

  // ---------------------------------------------------------------- logic nodes

  ghost function FaninStatus(n: Net, s: seq<Info>, o: nat): Status
    requires |s| == n.Size() && o < n.Size()
  {
    if exists x :: 0 <= x < |n.fanins[o]| && s[n.fanins[o][x]].sim.status == UNDEF then UNDEF
    else if exists x :: 0 <= x < |n.fanins[o]| && s[n.fanins[o][x]].sim.status in {NEW, SIM} then NEW
    else OLD
  }

  function Bit(b: bool): int {
    if b then 1 else 0
  }

  ghost function FaninValues(n: Net, s: seq<Info>, o: nat): (values: seq<int>)
    requires |s| == n.Size() && o < n.Size()
    ensures |values| == |n.fanins[o]|
  {
    seq(|n.fanins[o]|, x requires 0 <= x < |n.fanins[o]| => s[n.fanins[o][x]].sim.value)
  }

  ghost function Booleans(values: seq<int>): (a: seq<bool>)
    ensures |a| == |values|
  {
    seq(|values|, x requires 0 <= x < |values| => values[x] == 1)
  }

  /** The local function applied to the current fanin values. */
  ghost function NodeValue(n: Net, s: seq<Info>, o: nat): int
    requires |s| == n.Size() && o < n.Size() && Within(n.pData[o], |n.fanins[o]|)
  {
    Bit(Eval(n.pData[o], Booleans(FaninValues(n, s, o))))
  }

  /** The new value of a node whose inputs changed; the first value is not a toggle. */
  function Settle(a: Activity, value: int): Activity {
    if a.value != value || a.status == UNDEF then
      Activity(NEW, value, a.numOnes + value, if a.status != UNDEF then a.numToggles + 1 else a.numToggles)
    else Activity(OLD, a.value, a.numOnes + a.value, a.numToggles)
  }

  ghost function NodeStep(n: Net, s: seq<Info>, o: nat): Activity
    requires |s| == n.Size() && o < n.Size() && Within(n.pData[o], |n.fanins[o]|)
  {
    var a := s[o].sim;
    match FaninStatus(n, s, o)
    case UNDEF => a.(status := UNDEF)
    case NEW => Settle(a, NodeValue(n, s, o))
    case _ => a.(status := OLD, numOnes := a.numOnes + a.value)
  }

  ghost function NodeUpdate(n: Net, s: seq<Info>, o: nat): (t: seq<Info>)
    requires |s| == n.Size() && o < n.Size() && Within(n.pData[o], |n.fanins[o]|)
    ensures |t| == |s|
  {
    s[o := s[o].(sim := NodeStep(n, s, o))]
  }

  /** The first `k` nodes of the order, each reading what the earlier ones wrote. */
  ghost function NodeStage(n: Net, s: seq<Info>, k: nat): (t: seq<Info>)
    requires |s| == n.Size() && k <= |n.dfs|
    ensures |t| == |s|
  {
    if k == 0 then s else
      var t := NodeStage(n, s, k - 1);
      assert Local(n, n.dfs[k - 1]);
      NodeUpdate(n, t, n.dfs[k - 1])
  }

  /** Induction over the logic nodes in their order. */
  lemma {:induction false} NodeInduction(n: Net, s: seq<Info>, k: nat, inv: (nat, seq<Info>) -> bool)
    requires |s| == n.Size() && k <= |n.dfs| && inv(0, s)
    requires forall i: nat, u: seq<Info> | i < k && |u| == n.Size() && inv(i, u) ::
               n.dfs[i] < n.Size() && Local(n, n.dfs[i]) && inv(i + 1, NodeUpdate(n, u, n.dfs[i]))
    ensures inv(k, NodeStage(n, s, k))
  {
    if k > 0 {
      NodeInduction(n, s, k - 1, inv);
      assert inv(k - 1, NodeStage(n, s, k - 1));
    }
  }

  ghost predicate NoneSimulated(s: seq<Info>) {
    forall o | 0 <= o < |s| :: s[o].sim.status != SIM
  }

  method GetFaninStatus(n: Net, info: array<Info>, o: nat) returns (status: Status)
    requires info.Length == n.Size() && o < n.Size()
    ensures status == FaninStatus(n, info[..], o)
    ensures status == UNDEF <==> exists x: nat :: x < |n.fanins[o]| && info[n.fanins[o][x]].sim.status == UNDEF
    ensures status == NEW <==>
              && (forall x: nat | x < |n.fanins[o]| :: info[n.fanins[o][x]].sim.status != UNDEF)
              && exists x: nat :: x < |n.fanins[o]| && info[n.fanins[o][x]].sim.status in {NEW, SIM}
    ensures status in {UNDEF, NEW, OLD}
  {
    for x := 0 to |n.fanins[o]|
      invariant forall y | 0 <= y < x :: info[n.fanins[o][y]].sim.status != UNDEF
    {
      if info[n.fanins[o][x]].sim.status == UNDEF {
        return UNDEF;
      }
    }
    for x := 0 to |n.fanins[o]|
      invariant forall y | 0 <= y < x :: info[n.fanins[o][y]].sim.status !in {NEW, SIM}
    {
      if info[n.fanins[o][x]].sim.status == NEW || info[n.fanins[o][x]].sim.status == SIM {
        return NEW;
      }
    }
    return OLD;
  }

  /** None (a null pointer) when no fanin is marked NEW. */
  method GetFaninValues(n: Net, info: array<Info>, o: nat) returns (values: Option<seq<int>>)
    requires info.Length == n.Size() && o < n.Size()
    requires FaninStatus(n, info[..], o) != UNDEF
    ensures values.None? <==> forall x | 0 <= x < |n.fanins[o]| :: info[n.fanins[o][x]].sim.status != NEW
    ensures values.Some? ==> values.value == FaninValues(n, info[..], o)
  {
    var i := 0;
    while i < |n.fanins[o]|
      invariant 0 <= i <= |n.fanins[o]|
      invariant forall y | 0 <= y < i :: info[n.fanins[o][y]].sim.status != NEW
    {
      assert info[..][n.fanins[o][i]].sim.status != UNDEF;
      if info[n.fanins[o][i]].sim.status == NEW {
        break;
      }
      i := i + 1;
    }
    if i >= |n.fanins[o]| {
      return None;
    }
    var vs := [];
    for x := 0 to |n.fanins[o]|
      invariant |vs| == x && forall y | 0 <= y < x :: vs[y] == info[n.fanins[o][y]].sim.value
    {
      vs := vs + [info[n.fanins[o][x]].sim.value];
    }
    return Some(vs);
  }

  /** `Cudd_Eval`: walks the regular vertices and keeps the parity of the complement bits passed. */
  method CuddEval(f: Edge, inputs: seq<int>) returns (constant: Edge)
    requires Within(f, |inputs|)
    ensures constant.node.One?
    ensures forall a: seq<bool> | |a| == |inputs| && (forall i | 0 <= i < |a| :: a[i] == (inputs[i] == 1)) ::
              (constant == ONE_EDGE) == Eval(f, a)
  {
    ghost var a := Booleans(inputs);
    assert forall b: seq<bool> | |b| == |inputs| && (forall i | 0 <= i < |b| :: b[i] == (inputs[i] == 1)) :: b == a;
    var comple := f.complement;
    var ptr := f.node;
    while ptr.Node?
      invariant Within(Edge(ptr, comple), |inputs|) && Eval(Edge(ptr, comple), a) == Eval(f, a)
      decreases ptr
    {
      if inputs[ptr.index] == 1 {
        comple := comple != ptr.t.complement;
        ptr := ptr.t.node;
      } else {
        comple := comple != ptr.e.complement;
        ptr := ptr.e.node;
      }
    }
    constant := Edge(ptr, comple);
  }

  method EvaluateNode(n: Net, info: array<Info>, o: nat)
    requires info.Length == n.Size() && o < n.Size() && Within(n.pData[o], |n.fanins[o]|)
    requires NoneSimulated(info[..])
    modifies info
    ensures info[..] == NodeUpdate(n, old(info[..]), o)
    ensures (exists x: nat :: x < |n.fanins[o]| && old(info[..])[n.fanins[o][x]].sim.status == UNDEF) ==>
              info[o] == old(info[o]).(sim := old(info[o]).sim.(status := UNDEF))
  {
    ghost var s := info[..];
    var status := GetFaninStatus(n, info, o);
    var a := info[o].sim;
    if status == UNDEF {
      a := a.(status := UNDEF);
    } else if status == NEW {
      var faninValues := GetFaninValues(n, info, o);
      assert faninValues.Some? by {
        var x :| 0 <= x < |n.fanins[o]| && s[n.fanins[o][x]].sim.status in {NEW, SIM};
        assert info[n.fanins[o][x]].sim.status == NEW;
      }
      var constant := CuddEval(n.pData[o], faninValues.value);
      var value := if constant == ONE_EDGE then 1 else 0;
      assert value == NodeValue(n, s, o);
      if a.value != value || a.status == UNDEF {
        a := a.(value := value);
        if a.status != UNDEF {
          a := a.(numToggles := a.numToggles + 1);
        }
        a := a.(status := NEW);
      } else {
        a := a.(status := OLD);
      }
      a := a.(numOnes := a.numOnes + a.value);
    } else {
      a := a.(status := OLD, numOnes := a.numOnes + a.value);
    }
    info[o] := info[o].(sim := a);
  }

  method EvaluateCircuit(n: Net, info: array<Info>)
    requires info.Length == n.Size() && NoneSimulated(info[..])
    modifies info
    ensures info[..] == NodeStage(n, old(info[..]), |n.dfs|) && NoneSimulated(info[..])
  {
    for k := 0 to |n.dfs|
      invariant info[..] == NodeStage(n, old(info[..]), k) && NoneSimulated(info[..])
    {
      ghost var t := info[..];
      assert Local(n, n.dfs[k]);
      EvaluateNode(n, info, n.dfs[k]);
      assert forall o | 0 <= o < |t| && o != n.dfs[k] :: info[..][o] == t[o];
    }
  }

  // ---------------------------------------------------------------- latches

  function Follow(i: Info, source: Info): Info {
    i.(sim := source.sim)
  }

  /** `o` is one of the three objects of latch `k`. */
  ghost predicate Owns(n: Net, k: nat, o: nat)
    requires k < |n.latches|
  {
    var l := n.latches[k]; o == l.input || o == l.self || o == l.output
  }

  ghost function LatchStep(n: Net, s: seq<Info>, k: nat): (t: seq<Info>)
    requires |s| == n.Size() && k < |n.latches|
    ensures |t| == |s|
  {
    seq(|s|, o requires 0 <= o < |s| => if Owns(n, k, o) then Follow(s[o], s[n.latches[k].driver]) else s[o])
  }

  /** The loop over the latches, in place. */
  ghost function LatchStage(n: Net, s: seq<Info>, k: nat): (t: seq<Info>)
    requires |s| == n.Size() && k <= |n.latches|
    ensures |t| == |s|
  {
    if k == 0 then s else LatchStep(n, LatchStage(n, s, k - 1), k - 1)
  }

  /** Induction over the latches, from latch `j` on. */
  lemma {:induction false} LatchInduction(n: Net, s: seq<Info>, j: nat, k: nat, inv: (nat, seq<Info>) -> bool)
    requires |s| == n.Size() && j <= k <= |n.latches| && inv(j, LatchStage(n, s, j))
    requires forall i: nat, u: seq<Info> | j <= i < k && |u| == n.Size() && inv(i, u) :: inv(i + 1, LatchStep(n, u, i))
    ensures inv(k, LatchStage(n, s, k))
    decreases k
  {
    if j < k {
      LatchInduction(n, s, j, k - 1, inv);
      assert inv(k - 1, LatchStage(n, s, k - 1));
    }
  }

  /** The four assignments to one object of a latch. */
  method CopyActivity(info: array<Info>, o: nat, d: nat)
    requires o < info.Length && d < info.Length
    modifies info
    ensures info[..] == old(info[..])[o := Follow(old(info[o]), old(info[d]))]
  {
    info[o] := info[o].(sim := info[o].sim.(value := info[d].sim.value));
    info[o] := info[o].(sim := info[o].sim.(status := info[d].sim.status));
    info[o] := info[o].(sim := info[o].sim.(numOnes := info[d].sim.numOnes));
    info[o] := info[o].(sim := info[o].sim.(numToggles := info[d].sim.numToggles));
  }

  /** The driver may be the latch's own output object; its record is then copied onto itself. */
  method MoveLatch(n: Net, info: array<Info>, k: nat)
    requires info.Length == n.Size() && k < |n.latches|
    modifies info
    ensures info[..] == LatchStep(n, old(info[..]), k)
  {
    var l := n.latches[k];
    CopyActivity(info, l.input, l.driver);
    CopyActivity(info, l.self, l.driver);
    CopyActivity(info, l.output, l.driver);
  }

  method UpdateFFs(n: Net, info: array<Info>)
    requires info.Length == n.Size()
    modifies info
    ensures info[..] == LatchStage(n, old(info[..]), |n.latches|)
  {
    for k := 0 to |n.latches|
      invariant info[..] == LatchStage(n, old(info[..]), k)
    {
      MoveLatch(n, info, k);
    }
  }

  // ---------------------------------------------------------------- whole runs

  ghost function ResetInfo(k: Kind, i: Info): Info {
    i.(sim := Activity(if k == BO then NEW else UNDEF, 0, 0, 0))
  }

  ghost function Reset(n: Net, cfg: seq<Info>): seq<Info>
    requires |cfg| == n.Size()
  {
    seq(|cfg|, o requires 0 <= o < |cfg| => ResetInfo(n.kind[o], cfg[o]))
  }

  ghost function Cycle(n: Net, s: seq<Info>, cycle: nat, draw: (nat, nat) -> real): seq<Info>
    requires |s| == n.Size()
  {
    LatchStage(n, NodeStage(n, PiStage(n, s, cycle, draw), |n.dfs|), |n.latches|)
  }

  /** The records before cycle `t`. */
  ghost function Run(n: Net, cfg: seq<Info>, draw: (nat, nat) -> real, t: nat): (s: seq<Info>)
    requires |cfg| == n.Size()
    ensures |s| == n.Size()
  {
    if t == 0 then Reset(n, cfg) else Cycle(n, Run(n, cfg, draw, t - 1), t - 1, draw)
  }

  /** Induction over the cycles of a run. */
  lemma {:induction false} RunInduction(n: Net, cfg: seq<Info>, draw: (nat, nat) -> real, t: nat,
                                        inv: (nat, seq<Info>) -> bool)
    requires |cfg| == n.Size() && inv(0, Reset(n, cfg))
    requires forall i: nat, s: seq<Info> | |s| == n.Size() && inv(i, s) :: inv(i + 1, Cycle(n, s, i, draw))
    ensures inv(t, Run(n, cfg, draw, t))
  {
    if t > 0 {
      RunInduction(n, cfg, draw, t - 1, inv);
      assert inv(t - 1, Run(n, cfg, draw, t - 1));
    }
  }

  /** The records after the logic of cycle `t` has been evaluated, before the latches move. */
  ghost function Evaluated(n: Net, cfg: seq<Info>, draw: (nat, nat) -> real, t: nat): (s: seq<Info>)
    requires |cfg| == n.Size()
    ensures |s| == n.Size()
  {
    NodeStage(n, PiStage(n, Run(n, cfg, draw, t), t, draw), |n.dfs|)
  }
}
