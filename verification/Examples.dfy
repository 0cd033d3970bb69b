/** Small networks on which the program does not do what its comments and names promise. */
module Examples {
  import opened AceInfo
  import opened Ace
  import opened Bdd
  import opened Depth
  import opened LongRuns
  import opened Network
  import opened Sim
  import opened SimActivities
  import opened SimLatches
  import opened SimRefines
  import opened SimRuns
  import opened Traces
  import opened Vectors
  import opened VectorFile

  // ---------------------------------------------------------------- two latches in a row

  /** Input 0 drives the latch with the objects 1, 2, 3, and that one drives the latch with the objects 4, 5, 6. */
  const CHAIN := Ntk(
    [PI, BI, LATCH, BO, BI, LATCH, BO],
    [[], [0], [1], [2], [3], [4], [5]],
    [[1], [2], [3], [4], [5], [6], []],
    [ZERO_EDGE, ZERO_EDGE, ZERO_EDGE, ZERO_EDGE, ZERO_EDGE, ZERO_EDGE, ZERO_EDGE],
    [Latch(2, 1, 3, 0), Latch(5, 4, 6, 3)],
    [])

  lemma ChainIsShaped()
    ensures Shaped(CHAIN) && Ordered(CHAIN)
  {
  }

  lemma ChainIsWired(n: Ntk)
    requires n == CHAIN && Shaped(n)
    ensures LatchesWired(n)
  {
    assert n.latches[0] == Latch(2, 1, 3, 0) && n.latches[1] == Latch(5, 4, 6, 3);
    assert LatchWired(n, n.latches[0]) && LatchWired(n, n.latches[1]);
    assert FollowsLists(n, n.latches[0]) && FollowsLists(n, n.latches[1]);
    assert n.latches[0].output == 3 && n.latches[1].output == 6;
    assert IsLatchOutput(n, 3) && IsLatchOutput(n, 6);
  }

  lemma ChainIsWellFormed()
    ensures WellFormed(CHAIN)
  {
    ChainIsShaped();
    ChainIsWired(CHAIN);
  }

  function Start(vector: seq<int>, p: real, s: real, depth: int): Info {
    Info(Activity(UNDEF, 0, 0, 0), 0, depth, Some(vector), p, s, s, 0.0, 0.0)
  }

  /** An input that is 1 in the first cycle: the second latch shows the 1 in the next cycle, one too early. */
  lemma ChainIsTooEarly(draw: (nat, nat) -> real, s: real)
    ensures WellFormed(CHAIN)
    ensures var cfg := seq(7, _ => Start([1, 0], 0.5, s, 0));
            && Evaluated(CHAIN, cfg, draw, 1)[6].sim.value == 1
            && RefVal(CHAIN, Drivers(CHAIN), cfg, draw, 1, 6) == 0
  {
    ChainIsWellFormed();
    var cfg := seq(7, _ => Start([1, 0], 0.5, s, 0));
    LatchOfOutput(CHAIN, 0);
    assert Source(CHAIN, 0) == 0;
    assert Source(CHAIN, 1) == 0;
    ChainShowsTooEarly(CHAIN, cfg, draw, 1);
  }

  // ---------------------------------------------------------------- a node without fanins

  /** Node 0 is the constant 1, and feeds output 1. */
  const CONSTANT := Ntk([NODE, PO], [[], [0]], [[1], []], [ONE_EDGE, ONE_EDGE], [], [0])

  lemma ConstantIsWellFormed()
    ensures WellFormed(CONSTANT)
  {
    assert Within(ONE_EDGE, 0) && ReadOnce(ONE_EDGE);
    assert CONSTANT.dfs[0] == 0;
  }

  /** The node should show 1 and shows 0. */
  lemma ConstantIsMissed(src: seq<nat>, cfg: seq<Info>, draw: (nat, nat) -> real)
    requires |cfg| == 2
    ensures WellFormed(CONSTANT) && !Grounded(CONSTANT)
    ensures Evaluated(CONSTANT, cfg, draw, 0)[0].sim.value != RefVal(CONSTANT, src, cfg, draw, 0, 0)
  {
    ConstantIsWellFormed();
    assert SourceFree(CONSTANT, 0);
    assert Eval(ONE_EDGE, []);
    assert ConstFanins(CONSTANT, 0) == [];
    assert ConstVal(CONSTANT, 0) == 1;
    ConstantOneIsMissed(CONSTANT, src, cfg, draw, 0);
  }

  // ---------------------------------------------------------------- a single zero in a long run

  const VARIABLE := Edge(Node(0, ONE_EDGE, ZERO_EDGE), false)

  /** Input 0 drives the latch with the objects 1, 2, 3; node 4 copies the latch output and node 5 the input. */
  const REGISTERED := Ntk(
    [PI, BI, LATCH, BO, NODE, NODE],
    [[], [0], [1], [2], [3], [0]],
    [[1, 5], [2], [3], [4], [], []],
    [ZERO_EDGE, ZERO_EDGE, ZERO_EDGE, ZERO_EDGE, VARIABLE, VARIABLE],
    [Latch(2, 1, 3, 0)],
    [4, 5])

  lemma RegisteredIsShaped()
    ensures Shaped(REGISTERED)
  {
  }

  lemma VariableIsLocal(e: Edge, n: nat)
    requires e == VARIABLE && n == 1
    ensures Within(e, n) && ReadOnce(e)
  {
    assert Support(ONE_EDGE) == {} && Support(ZERO_EDGE) == {};
  }

  lemma RegisteredIsOrdered(n: Ntk)
    requires n == REGISTERED && Shaped(n)
    ensures Ordered(n)
  {
    VariableIsLocal(VARIABLE, 1);
    assert n.dfs[0] == 4 && n.dfs[1] == 5;
  }

  lemma RegisteredIsWired(n: Ntk)
    requires n == REGISTERED && Shaped(n)
    ensures LatchesWired(n)
  {
    assert n.latches[0] == Latch(2, 1, 3, 0);
    assert LatchWired(n, n.latches[0]) && FollowsLists(n, n.latches[0]);
    assert IsLatchOutput(n, 3);
  }

  lemma RegisteredIsWellFormed()
    ensures WellFormed(REGISTERED)
  {
    RegisteredIsShaped();
    RegisteredIsOrdered(REGISTERED);
    RegisteredIsWired(REGISTERED);
  }

  lemma RegisteredOrigins(n: Net)
    requires n == REGISTERED
    ensures Origin(n, 0) == 0 && Origin(n, 3) == 0
  {
    assert n.latches[0] == Latch(2, 1, 3, 0) && n.kind[0] == PI;
    assert Owns(n, 0, 3);
    OriginOfLatch(n, 0, 3);
    OriginOfOther(n, 0);
  }

  /** The vector 1 0 1 1 1 ... */
  ghost function Dip(cycles: nat): (s: seq<int>)
    ensures |s| == cycles
  {
    seq(cycles, i => if i == 1 then 0 else 1)
  }

  lemma {:induction false} DipOnes(cycles: nat)
    requires cycles >= 2
    ensures CountOnes(Dip(cycles)) == cycles - 1
  {
    assert Dip(cycles)[..cycles - 1] == Dip(cycles - 1);
    if cycles > 2 {
      DipOnes(cycles - 1);
    } else {
      assert Dip(1)[..0] == [];
      assert CountOnes(Dip(1)) == 1;
    }
  }

  /** What the reader makes of the vector: one zero, two toggles. */
  ghost function DipConfig(cycles: nat): (cfg: seq<Info>)
    requires cycles > 0
    ensures |cfg| == 6
  {
    var i := Start(Dip(cycles), (cycles - 1) as real / cycles as real, 2.0 / cycles as real, 1);
    seq(6, _ => i)
  }

  lemma DipIsIsolated(cycles: nat)
    requires cycles >= 3
    ensures ZerosIsolated(Dip(cycles)) && Zeros(Dip(cycles)) == 1
  {
    DipOnes(cycles);
  }

  lemma DipIsFragile(n: Net, cfg: seq<Info>, draw: (nat, nat) -> real, cycles: nat, o: nat)
    requires |cfg| == n.Size() && o < n.Size() && cycles >= 3
    requires n.kind[Origin(n, o)] == PI && cfg[Origin(n, o)].values == Some(Dip(cycles))
    ensures Fragile(n, cfg, draw, cycles, o)
  {
    TraceIsVector(n, cfg, draw, cycles, Origin(n, o), Dip(cycles));
    assert Dip(cycles)[..cycles] == Dip(cycles);
    DipIsIsolated(cycles);
  }

  lemma CopyAborts(n: Net, cfg: seq<Info>, draw: (nat, nat) -> real, cycles: nat, o: nat)
    requires |cfg| == n.Size() && o < n.Size() && |n.fanins[o]| == 1 && cfg[o].depth == 1 && cycles >= 3
    requires n.kind[Origin(n, n.fanins[o][0])] == PI && cfg[Origin(n, n.fanins[o][0])].values == Some(Dip(cycles))
    ensures NodeAborts(n, {}, cfg, draw, cycles, o)
  {
    DipIsFragile(n, cfg, draw, cycles, n.fanins[o][0]);
    assert !IsClock(n, {}, n.fanins[o][0]);
  }

  lemma NodesAreShallow(n: Net, o: nat)
    requires o < n.Size() && n.kind[o] == NODE && |n.fanins[o]| == 1 && n.kind[n.fanins[o][0]] != NODE
    ensures Longest(n, o, 1)
  {
    assert EndsAt(n, [o], o);
    forall p: seq<nat> | EndsAt(n, p, o) ensures |p| <= 1 {
      if |p| > 1 {
        LastStep(n, p);
      }
    }
  }

  lemma LastStep(n: Net, p: seq<nat>)
    requires |p| > 1 && LogicPath(n, p)
    ensures exists f :: f in n.fanins[p[|p| - 1]] && f < n.Size() && n.kind[f] == NODE
  {
    var i := |p| - 2;
    assert p[i] in n.fanins[p[i + 1]];
  }

  lemma DipIsGood(c: real)
    requires c >= 3.0
    ensures var p, s := (c - 1.0) / c, 2.0 / c; Consistent(p, s) && s <= 1.0
  {
    var p, q := (c - 1.0) / c, 1.0 / c;
    assert p * c + q * c == c;
  }

  lemma DipPasses(n: Net, cfg: seq<Info>, draw: (nat, nat) -> real, cycles: nat)
    requires |cfg| == n.Size() && cycles >= 100000 && forall o: nat | o < n.Size() :: cfg[o].values == Some(Dip(cycles))
    ensures VectorsCover(n, cfg, cycles) && NoInputTrips(n, cfg, draw, cycles)
  {
  }

  lemma CopiesAbort(n: Net, cfg: seq<Info>, draw: (nat, nat) -> real, cycles: nat, o: nat)
    requires n == REGISTERED && |cfg| == 6 && cycles >= 3 && o in {4, 5}
    requires cfg[0].values == Some(Dip(cycles)) && cfg[o].depth == 1
    ensures Longest(n, o, 1) && NodeAborts(n, {}, cfg, draw, cycles, o)
  {
    RegisteredOrigins(n);
    assert n.fanins[o] == if o == 4 then [3] else [0];
    CopyAborts(n, cfg, draw, cycles, o);
    NodesAreShallow(n, o);
  }

  lemma DipConfigIsGood(cycles: nat)
    requires cycles >= 3
    ensures InputGood(DipConfig(cycles)[0])
  {
    DipIsGood(cycles as real);
  }

  /** In a run of 100000 cycles or more every check before stage 4 passes, and then a clamp aborts at both nodes. */
  lemma LongRunAborts(n: Net, cfg: seq<Info>, draw: (nat, nat) -> real, cycles: nat)
    requires n == REGISTERED && cycles >= 100000 && cfg == DipConfig(cycles)
    ensures InputGood(cfg[0]) && VectorsCover(n, cfg, cycles) && NoInputTrips(n, cfg, draw, cycles)
    ensures forall o | o in {4, 5} :: Longest(n, o, cfg[o].depth) && NodeAborts(n, {}, cfg, draw, cycles, o)
  {
    DipConfigIsGood(cycles);
    DipPasses(n, cfg, draw, cycles);
    CopiesAbort(n, cfg, draw, cycles, 4);
    CopiesAbort(n, cfg, draw, cycles, 5);
  }

  // ---------------------------------------------------------------- a short vector file

  lemma TwoLines(text: string, limit: nat)
    requires limit >= 3 && |text| == 3 && text[0] != '\n' && text[1] == '\n' && text[2] != '\n'
    ensures EndsOpen(text, limit) && FullLines(text, limit) == [text[..2]]
  {
    var rest := text[2..];
    assert LineLength(text[1..], limit - 1) == 1;
    assert LineLength(text, limit) == 2;
    assert LineLength(rest[1..], limit - 1) == 0;
    assert LineLength(rest, limit) == 1;
    assert rest[..1] == rest && rest[1..] == "";
    assert Chunks(rest, limit) == [rest];
    assert Chunks(text, limit) == [text[..2]] + [rest];
    assert rest[0] != '\n';
  }

  lemma OneWord(line: string, garbage: string)
    requires |line| == 2 && line[0] == '1' && line[1] == '\n'
    ensures Words([line], garbage) == ["1"]
  {
    assert Leading(line[1..]) == "";
    assert Leading(line) == "1";
    assert Scan(line, garbage) == "1";
    assert [line][..0] == [];
  }

  lemma OnlyTheFirst(text: string, limit: nat, garbage: string, numPi: nat)
    requires limit >= 3 && |text| == 3 && text[0] == '1' && text[1] == '\n' && text[2] == '0' && numPi == 1
    ensures EndsOpen(text, limit) && Accepted(text, limit, garbage, numPi) == ["1"]
  {
    TwoLines(text, limit);
    OneWord(text[..2], garbage);
    var lines := Processed(text, limit, garbage);
    assert |lines[0]| == 1;
    GoodLinesAre(lines, numPi, 1);
  }

  /** A file with the two lines 1 and 0, the second without its newline: only the first is stored, and the run of
      5000 cycles that the program always makes reads past it. */
  lemma ShortFileIsOverrun(text: string, limit: nat, garbage: string, numPi: nat, cfg: seq<Info>)
    requires text == "1\n0" && limit >= 3 && numPi == 1 && |cfg| == 6 && cfg[0].values == Some([1])
    ensures EndsOpen(text, limit) && Accepted(text, limit, garbage, numPi) == ["1"] && BitsOf("1") == [1]
    ensures WellFormed(REGISTERED) && !VectorsCover(REGISTERED, cfg, 5000)
  {
    OnlyTheFirst(text, limit, garbage, numPi);
    RegisteredIsWellFormed();
    assert REGISTERED.kind[0] == PI;
  }
}
