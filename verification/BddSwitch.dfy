/** What `calc_switch_prob_recur` computes, on values: the enumeration of the paths of a diagram, each weighted
    by the probability of its current inputs and of the next value given them (ace2/bdd.c). */
module BddSwitch {
  import opened AceInfo
  import opened Cube
  import opened Expectation
  import opened Bdd

  /** The probability that an input is 1 next, given its literal in the cube. */
  ghost function NextWeight(l: Literal, f: Info): real {
    match l
    case ZERO => f.prob0to1
    case ONE => 1.0 - f.prob1to0
    case TWO => f.staticProb
  }

  ghost function NextWeights(c: seq<Literal>, f: seq<Info>): (ws: seq<real>)
    requires |c| == |f|
    ensures |ws| == |f|
  {
    seq(|f|, i requires 0 <= i < |f| => NextWeight(c[i], f[i]))
  }

  /** The probability that an input is 1 now, given its literal in the cube. */
  ghost function NowWeight(l: Literal, f: Info): real {
    match l
    case ZERO => 0.0
    case ONE => 1.0
    case TWO => f.staticProb
  }

  ghost function NowWeights(c: seq<Literal>, f: seq<Info>): (ws: seq<real>)
    requires |c| == |f|
    ensures |ws| == |f|
  {
    seq(|f|, i requires 0 <= i < |f| => NowWeight(c[i], f[i]))
  }

  ghost function Statics(f: seq<Info>): seq<real> {
    seq(|f|, i requires 0 <= i < |f| => f[i].staticProb)
  }

  ghost function DontCare(n: nat): seq<Literal> {
    seq(n, _ => TWO)
  }

  /** The cube of a full assignment. */
  ghost function CubeOf(a: seq<bool>): seq<Literal> {
    seq(|a|, i requires 0 <= i < |a| => if a[i] then ONE else ZERO)
  }

  /** `calc_cube_switch_prob`: the probability that `e` ends at `phase` next, given the cube now. */
  ghost function CubeSwitchProb(e: Edge, c: seq<Literal>, f: seq<Info>, phase: bool): real
    requires |c| == |f| && Within(e, |f|)
  {
    Reach(e, NextWeights(c, f), phase)
  }

  /** Every input moves like a stationary 0/1 chain. */
  ghost predicate Chains(f: seq<Info>) {
    forall i | 0 <= i < |f| :: Stationary(f[i].staticProb, f[i].prob0to1, f[i].prob1to0)
  }

  /** The numbers of every input are probabilities, of a stationary chain or not. */
  ghost predicate Probable(f: seq<Info>) {
    forall i | 0 <= i < |f| ::
      0.0 <= f[i].staticProb <= 1.0 && 0.0 <= f[i].prob0to1 <= 1.0 && 0.0 <= f[i].prob1to0 <= 1.0
  }

  /** The cube leaves every variable of `e` open. */
  ghost predicate Open(e: Edge, c: seq<Literal>)
    requires Within(e, |c|)
    decreases e.node
  {
    e.node.Node? ==> c[e.node.index] == TWO && Open(e.node.t, c) && Open(e.node.e, c)
  }

  // ---------------------------------------------------------------- the path sums

  /** The average next-value probability over every path of `e`, each weighted by the static probabilities along it. */
  ghost function PathTotal(next: Edge, e: Edge, c: seq<Literal>, f: seq<Info>, phase: bool): real
    requires |c| == |f| && Within(next, |f|) && Within(e, |f|)
    decreases e.node
  {
    if e.node.One? then CubeSwitchProb(next, c, f, phase)
    else
      var v := e.node.index;
      Mix(f[v].staticProb, PathTotal(next, If1(e), c[v := ONE], f, phase),
        PathTotal(next, If0(e), c[v := ZERO], f, phase))
  }

  ghost function SquareMix(x: real, a: real, b: real): real {
    Mix(x, x * a, (1.0 - x) * b)
  }

  /** What the code adds up: the paths that end away from `phase`, each with the square of its weight. */
  ghost function SwitchSum(next: Edge, e: Edge, c: seq<Literal>, f: seq<Info>, phase: bool): real
    requires |c| == |f| && Within(next, |f|) && Within(e, |f|)
    decreases e.node
  {
    if e.node.One? then
      (if phase == !e.complement then 0.0 else CubeSwitchProb(next, c, f, phase))
    else
      var v := e.node.index;
      SquareMix(f[v].staticProb, SwitchSum(next, If1(e), c[v := ONE], f, phase),
        SwitchSum(next, If0(e), c[v := ZERO], f, phase))
  }

  /** The average over the paths that end away from `phase`, each weighted once. */
  ghost function JointProb(next: Edge, e: Edge, c: seq<Literal>, f: seq<Info>, phase: bool): real
    requires |c| == |f| && Within(next, |f|) && Within(e, |f|)
    decreases e.node
  {
    if e.node.One? then
      (if phase == !e.complement then 0.0 else CubeSwitchProb(next, c, f, phase))
    else
      var v := e.node.index;
      Mix(f[v].staticProb, JointProb(next, If1(e), c[v := ONE], f, phase),
        JointProb(next, If0(e), c[v := ZERO], f, phase))
  }

  // ---------------------------------------------------------------- refining a cube

  lemma {:induction false} OpenAfterBranch(e: Edge, c: seq<Literal>, v: nat, l: Literal)
    requires Within(e, |c|) && Open(e, c) && v < |c| && v !in Support(e)
    ensures Open(e, c[v := l])
    decreases e.node
  {
    if e.node.Node? {
      OpenAfterBranch(e.node.t, c, v, l);
      OpenAfterBranch(e.node.e, c, v, l);
    }
  }

  lemma ChildrenOpen(e: Edge, c: seq<Literal>)
    requires Within(e, |c|) && ReadOnce(e) && Open(e, c) && e.node.Node?
    ensures Open(If1(e), c[e.node.index := ONE]) && Open(If0(e), c[e.node.index := ZERO])
  {
    OpenAfterBranch(If1(e), c, e.node.index, ONE);
    OpenAfterBranch(If0(e), c, e.node.index, ZERO);
  }

  lemma NextWeightsAreProbabilities(c: seq<Literal>, f: seq<Info>)
    requires |c| == |f| && Probable(f)
    ensures Probabilities(NextWeights(c, f))
  {
  }

  lemma CubeSwitchProbInUnit(e: Edge, c: seq<Literal>, f: seq<Info>, phase: bool)
    requires |c| == |f| && Within(e, |f|) && Probable(f)
    ensures 0.0 <= CubeSwitchProb(e, c, f, phase) <= 1.0
  {
    NextWeightsAreProbabilities(c, f);
    ReachIsProbability(e, NextWeights(c, f), phase);
  }

  lemma ReachAffine(e: Edge, ws: seq<real>, v: nat, x: real, phase: bool)
    requires Within(e, |ws|) && ReadOnce(e) && v < |ws|
    ensures Reach(e, ws[v := x], phase) == Mix(x, Reach(e, ws[v := 1.0], phase), Reach(e, ws[v := 0.0], phase))
  {
    var us := ws[v := x];
    ReachIsExpectation(e, us, phase);
    ReachIsExpectation(e, ws[v := 1.0], phase);
    ReachIsExpectation(e, ws[v := 0.0], phase);
    SplitExp(us, Ends(e, |ws|, phase), v);
    assert us[v := 1.0] == ws[v := 1.0] && us[v := 0.0] == ws[v := 0.0];
  }

  lemma StationaryMix(p: real, up: real, down: real, a: real, b: real)
    requires Stationary(p, up, down)
    ensures Mix(p, Mix(1.0 - down, a, b), Mix(up, a, b)) == Mix(p, a, b)
  {
    var q := p * (1.0 - down) + (1.0 - p) * up;
    assert Mix(p, Mix(1.0 - down, a, b), Mix(up, a, b)) == q * a + (1.0 - q) * b;
  }

  /** Total probability over one input: fixing it to its two current values averages out. */
  lemma {:induction false} TotalOverOneInput(e: Edge, c: seq<Literal>, f: seq<Info>, phase: bool, v: nat)
    requires |c| == |f| && Within(e, |f|) && ReadOnce(e) && Chains(f) && v < |c| && c[v] == TWO
    ensures CubeSwitchProb(e, c, f, phase)
            == Mix(f[v].staticProb, CubeSwitchProb(e, c[v := ONE], f, phase), CubeSwitchProb(e, c[v := ZERO], f, phase))
  {
    var ws := NextWeights(c, f);
    var p, up, down := f[v].staticProb, f[v].prob0to1, f[v].prob1to0;
    assert NextWeights(c[v := ONE], f) == ws[v := 1.0 - down];
    assert NextWeights(c[v := ZERO], f) == ws[v := up];
    assert ws == ws[v := p];
    ReachAffine(e, ws, v, p, phase);
    ReachAffine(e, ws, v, up, phase);
    ReachAffine(e, ws, v, 1.0 - down, phase);
    StationaryMix(p, up, down, Reach(e, ws[v := 1.0], phase), Reach(e, ws[v := 0.0], phase));
  }

  /** The paths enumerated from a cube that leaves the diagram open average to the unrefined probability. */
  lemma {:induction false} TotalProbability(next: Edge, e: Edge, c: seq<Literal>, f: seq<Info>, phase: bool)
    requires |c| == |f| && Within(next, |f|) && Within(e, |f|) && ReadOnce(next) && ReadOnce(e) && Chains(f)
    requires Open(e, c)
    ensures PathTotal(next, e, c, f, phase) == CubeSwitchProb(next, c, f, phase)
    decreases e.node
  {
    if e.node.Node? {
      var v := e.node.index;
      ChildrenOpen(e, c);
      TotalProbability(next, If1(e), c[v := ONE], f, phase);
      TotalProbability(next, If0(e), c[v := ZERO], f, phase);
      TotalOverOneInput(next, c, f, phase, v);
    }
  }

  // ---------------------------------------------------------------- bounds

  lemma MixMonotone(p: real, a: real, b: real, x: real, y: real)
    requires 0.0 <= p <= 1.0 && a <= x && b <= y
    ensures Mix(p, a, b) <= Mix(p, x, y)
  {
    assert 0.0 <= p * (x - a);
    assert 0.0 <= (1.0 - p) * (y - b);
  }

  lemma Shrinks(p: real, a: real)
    requires 0.0 <= p <= 1.0 && 0.0 <= a
    ensures 0.0 <= p * a <= a
  {
  }

  lemma SquareMixBelow(p: real, a: real, b: real, x: real, y: real)
    requires 0.0 <= p <= 1.0 && 0.0 <= a <= x && 0.0 <= b <= y
    ensures 0.0 <= SquareMix(p, a, b) <= Mix(p, x, y)
  {
    var q := 1.0 - p;
    Shrinks(p, a);
    Shrinks(q, b);
    MixMonotone(p, p * a, q * b, x, y);
    MixMonotone(p, 0.0, 0.0, p * a, q * b);
  }

  /** Counting the weight of a path twice only loses. */
  lemma {:induction false} SwitchBelowJoint(next: Edge, e: Edge, c: seq<Literal>, f: seq<Info>, phase: bool)
    requires |c| == |f| && Within(next, |f|) && Within(e, |f|) && Probable(f)
    ensures 0.0 <= SwitchSum(next, e, c, f, phase) <= JointProb(next, e, c, f, phase)
    decreases e.node
  {
    if e.node.One? {
      CubeSwitchProbInUnit(next, c, f, phase);
    } else {
      var v := e.node.index;
      var c1, c0 := c[v := ONE], c[v := ZERO];
      SwitchBelowJoint(next, If1(e), c1, f, phase);
      SwitchBelowJoint(next, If0(e), c0, f, phase);
      SquareMixBelow(f[v].staticProb, SwitchSum(next, If1(e), c1, f, phase), SwitchSum(next, If0(e), c0, f, phase),
                     JointProb(next, If1(e), c1, f, phase), JointProb(next, If0(e), c0, f, phase));
    }
  }

  /** Some of the paths weigh at most all of them. */
  lemma {:induction false} JointBelowNext(next: Edge, e: Edge, c: seq<Literal>, f: seq<Info>, phase: bool)
    requires |c| == |f| && Within(next, |f|) && Within(e, |f|) && ReadOnce(next) && ReadOnce(e) && Chains(f)
    requires Open(e, c)
    ensures JointProb(next, e, c, f, phase) <= CubeSwitchProb(next, c, f, phase)
    decreases e.node
  {
    if e.node.One? {
      CubeSwitchProbInUnit(next, c, f, phase);
    } else {
      var v := e.node.index;
      var c1, c0 := c[v := ONE], c[v := ZERO];
      assert Open(If1(e), c1) && Open(If0(e), c0) by { ChildrenOpen(e, c); }
      JointBelowNext(next, If1(e), c1, f, phase);
      JointBelowNext(next, If0(e), c0, f, phase);
      TotalOverOneInput(next, c, f, phase, v);
      MixMonotone(f[v].staticProb, JointProb(next, If1(e), c1, f, phase), JointProb(next, If0(e), c0, f, phase),
                  CubeSwitchProb(next, c1, f, phase), CubeSwitchProb(next, c0, f, phase));
    }
  }

  /** A path that counts starts at the other leaf. */
  lemma {:induction false} JointBelowOtherLeaf(next: Edge, e: Edge, c: seq<Literal>, f: seq<Info>, phase: bool)
    requires |c| == |f| && Within(next, |f|) && Within(e, |f|) && Probable(f)
    ensures JointProb(next, e, c, f, phase) <= Reach(e, Statics(f), !phase)
    decreases e.node
  {
    if e.node.One? {
      CubeSwitchProbInUnit(next, c, f, phase);
    } else {
      var v := e.node.index;
      var c1, c0 := c[v := ONE], c[v := ZERO];
      JointBelowOtherLeaf(next, If1(e), c1, f, phase);
      JointBelowOtherLeaf(next, If0(e), c0, f, phase);
      MixMonotone(f[v].staticProb, JointProb(next, If1(e), c1, f, phase), JointProb(next, If0(e), c0, f, phase),
                  Reach(If1(e), Statics(f), !phase), Reach(If0(e), Statics(f), !phase));
    }
  }

  lemma {:induction false} DontCareIsOpen(e: Edge, n: nat)
    requires Within(e, n)
    ensures Open(e, DontCare(n))
    decreases e.node
  {
    if e.node.Node? {
      DontCareIsOpen(e.node.t, n);
      DontCareIsOpen(e.node.e, n);
    }
  }

  /** The estimate of one node: below the true joint probability of "not `phase` now, `phase` next", and therefore
      below both `q` and `1 - q`, where `q` is the chance of being at `phase`. */
  lemma ActivityBound(e: Edge, f: seq<Info>, phase: bool)
    requires Within(e, |f|) && ReadOnce(e) && Chains(f)
    ensures var q := Reach(e, Statics(f), phase);
            var s := SwitchSum(e, e, DontCare(|f|), f, phase);
            var j := JointProb(e, e, DontCare(|f|), f, phase);
            0.0 <= s <= j <= q <= 1.0 && j <= 1.0 - q
  {
    var dc := DontCare(|f|);
    DontCareIsOpen(e, |f|);
    assert NextWeights(dc, f) == Statics(f);
    SwitchBelowJoint(e, e, dc, f, phase);
    JointBelowNext(e, e, dc, f, phase);
    JointBelowOtherLeaf(e, e, dc, f, phase);
    PhasesSumToOne(e, Statics(f));
    CubeSwitchProbInUnit(e, dc, f, phase);
  }

  // ---------------------------------------------------------------- the joint probability

  /** On a full current assignment: the chance of `phase` next, if the walk is not at `phase` now. */
  ghost function Leaves(next: Edge, e: Edge, f: seq<Info>, phase: bool): seq<bool> -> real
    requires Within(next, |f|) && Within(e, |f|)
  {
    a => if |a| == |f| && Walk(e, a) != phase then CubeSwitchProb(next, CubeOf(a), f, phase) else 0.0
  }

  ghost function Settled(next: Edge, f: seq<Info>, phase: bool): seq<bool> -> real
    requires Within(next, |f|)
  {
    a => if |a| == |f| then CubeSwitchProb(next, CubeOf(a), f, phase) else 0.0
  }

  /** The probability given a cube is the average over the full assignments inside it. */
  lemma {:induction false} AverageOverCube(next: Edge, c: seq<Literal>, f: seq<Info>, phase: bool, k: nat)
    requires |c| == |f| && Within(next, |f|) && ReadOnce(next) && Chains(f)
    requires k <= |c| && forall i | 0 <= i < k :: c[i] != TWO
    ensures CubeSwitchProb(next, c, f, phase) == Exp(NowWeights(c, f), Settled(next, f, phase))
    decreases |c| - k
  {
    var ws, g := NowWeights(c, f), Settled(next, f, phase);
    if k == |c| {
      var r := CubeSwitchProb(next, c, f, phase);
      forall a | Agrees(ws, a) ensures g(a) == r {
        assert forall i | 0 <= i < |f| :: ws[i] == NowWeight(c[i], f[i]);
        assert CubeOf(a) == c;
      }
      ExpCongruence(ws, g, _ => r);
      ExpOfConstant(ws, r);
    } else if c[k] != TWO {
      AverageOverCube(next, c, f, phase, k + 1);
    } else {
      TotalOverOneInput(next, c, f, phase, k);
      AverageOverCube(next, c[k := ONE], f, phase, k + 1);
      AverageOverCube(next, c[k := ZERO], f, phase, k + 1);
      NowWeightsOfBranch(c, f, k);
      SplitExp(ws, g, k);
    }
  }

  lemma NowWeightsOfBranch(c: seq<Literal>, f: seq<Info>, v: nat)
    requires |c| == |f| && v < |c|
    ensures NowWeights(c[v := ONE], f) == NowWeights(c, f)[v := 1.0]
    ensures NowWeights(c[v := ZERO], f) == NowWeights(c, f)[v := 0.0]
  {
  }

  lemma {:induction false} JointIsExpectation(next: Edge, e: Edge, c: seq<Literal>, f: seq<Info>, phase: bool)
    requires |c| == |f| && Within(next, |f|) && Within(e, |f|) && ReadOnce(next) && ReadOnce(e) && Chains(f)
    requires Open(e, c)
    ensures JointProb(next, e, c, f, phase) == Exp(NowWeights(c, f), Leaves(next, e, f, phase))
    decreases e.node
  {
    var ws, g := NowWeights(c, f), Leaves(next, e, f, phase);
    if e.node.One? {
      if phase == !e.complement {
        ExpCongruence(ws, g, _ => 0.0);
        ExpOfConstant(ws, 0.0);
      } else {
        ExpCongruence(ws, g, Settled(next, f, phase));
        AverageOverCube(next, c, f, phase, 0);
      }
    } else {
      var v := e.node.index;
      var c1, c0 := c[v := ONE], c[v := ZERO];
      assert Open(If1(e), c1) && Open(If0(e), c0) by { ChildrenOpen(e, c); }
      assert NowWeights(c1, f) == ws[v := 1.0] && NowWeights(c0, f) == ws[v := 0.0] by { NowWeightsOfBranch(c, f, v); }
      assert JointProb(next, If1(e), c1, f, phase) == Exp(ws[v := 1.0], g) by {
        JointIsExpectation(next, If1(e), c1, f, phase);
        ExpCongruence(ws[v := 1.0], g, Leaves(next, If1(e), f, phase));
      }
      assert JointProb(next, If0(e), c0, f, phase) == Exp(ws[v := 0.0], g) by {
        JointIsExpectation(next, If0(e), c0, f, phase);
        ExpCongruence(ws[v := 0.0], g, Leaves(next, If0(e), f, phase));
      }
      assert Exp(ws, g) == Mix(f[v].staticProb, Exp(ws[v := 1.0], g), Exp(ws[v := 0.0], g)) by { SplitExp(ws, g, v); }
    }
  }

  /** "Not at `phase` under `a`, at `phase` next": the weight of the next assignments that end at `phase`. */
  ghost function SwitchesTo(e: Edge, f: seq<Info>, phase: bool): seq<bool> -> real
    requires Within(e, |f|)
  {
    a => if |a| == |f| && Walk(e, a) != phase then Exp(NextWeights(CubeOf(a), f), Ends(e, |f|, phase)) else 0.0
  }

  /** With the weight taken once, the enumeration would be exactly the probability, over the current and the next
      assignment of independent stationary inputs, that the walk leaves the other leaf and arrives at `phase`. */
  lemma JointIsSwitchProbability(e: Edge, f: seq<Info>, phase: bool)
    requires Within(e, |f|) && ReadOnce(e) && Chains(f)
    ensures JointProb(e, e, DontCare(|f|), f, phase) == Exp(Statics(f), SwitchesTo(e, f, phase))
  {
    var dc := DontCare(|f|);
    DontCareIsOpen(e, |f|);
    JointIsExpectation(e, e, dc, f, phase);
    assert NowWeights(dc, f) == Statics(f);
    forall a | Agrees(Statics(f), a) ensures Leaves(e, e, f, phase)(a) == SwitchesTo(e, f, phase)(a) {
      ReachIsExpectation(e, NextWeights(CubeOf(a), f), phase);
    }
    ExpCongruence(Statics(f), Leaves(e, e, f, phase), SwitchesTo(e, f, phase));
  }

  /** The squared weight is a real loss: a buffer whose input switches half the time is estimated at half of that. */
  lemma BufferIsUnderestimated(f: Info)
    requires f.staticProb == 0.5 && f.prob0to1 == 0.5 && f.prob1to0 == 0.5
    ensures var x := Edge(Node(0, ONE_EDGE, ZERO_EDGE), false);
            Within(x, 1) && Chains([f])
            && SwitchSum(x, x, DontCare(1), [f], false) == 0.125
            && JointProb(x, x, DontCare(1), [f], false) == 0.25
  {
    var x := Edge(Node(0, ONE_EDGE, ZERO_EDGE), false);
    var c := DontCare(1)[0 := ONE];
    assert CubeSwitchProb(x, c, [f], false)
        == Mix(NextWeights(c, [f])[0], Reach(ONE_EDGE, NextWeights(c, [f]), false),
               Reach(ZERO_EDGE, NextWeights(c, [f]), false));
  }

  // ---------------------------------------------------------------- when the double weight does not matter

  /** On the cube so far the next weights are the static probabilities: its fixed inputs never move. */
  ghost predicate Frozen(c: seq<Literal>, f: seq<Info>)
    requires |c| == |f|
  {
    NextWeights(c, f) == Statics(f)
  }

  lemma BranchFrozen(c: seq<Literal>, f: seq<Info>, v: nat)
    requires |c| == |f| && v < |f| && Frozen(c, f) && Chains(f)
    ensures f[v].staticProb == 1.0 ==> Frozen(c[v := ONE], f)
    ensures f[v].staticProb == 0.0 ==> Frozen(c[v := ZERO], f)
  {
    assert Stationary(f[v].staticProb, f[v].prob0to1, f[v].prob1to0);
    assert NextWeights(c[v := ONE], f) == NextWeights(c, f)[v := 1.0 - f[v].prob1to0];
    assert NextWeights(c[v := ZERO], f) == NextWeights(c, f)[v := f[v].prob0to1];
  }

  lemma BelowOneLoses(p: real, s: real, j: real)
    requires 0.0 < p <= 1.0 && 0.0 <= s <= j && p * s == j && j > 0.0
    ensures p == 1.0 && s == j
  {
    assert p * s <= p * j;
    assert (1.0 - p) * j <= 0.0;
    assert p < 1.0 ==> (1.0 - p) * j > 0.0;
  }

  lemma EqualParts(p: real, a: real, b: real, x: real, y: real)
    requires 0.0 <= p <= 1.0 && 0.0 <= a <= x && 0.0 <= b <= y
    requires SquareMix(p, a, b) == Mix(p, x, y)
    ensures p > 0.0 ==> p * a == x
    ensures p < 1.0 ==> (1.0 - p) * b == y
  {
    var q := 1.0 - p;
    Shrinks(p, a);
    Shrinks(q, b);
    assert p * (x - p * a) + q * (y - q * b) == 0.0;
    assert 0.0 <= p * (x - p * a) && 0.0 <= q * (y - q * b);
    assert p > 0.0 && x - p * a > 0.0 ==> p * (x - p * a) > 0.0;
    assert q > 0.0 && y - q * b > 0.0 ==> q * (y - q * b) > 0.0;
  }

  /** A node at which nothing is lost and something is left passes both on to one child, over a frozen input. */
  lemma NothingLost(p: real, a: real, b: real, x: real, y: real) returns (one: bool)
    requires 0.0 <= p <= 1.0 && 0.0 <= a <= x && 0.0 <= b <= y
    requires SquareMix(p, a, b) == Mix(p, x, y) && Mix(p, x, y) > 0.0
    ensures if one then p == 1.0 && a == x && x > 0.0 else p == 0.0 && b == y && y > 0.0
  {
    EqualParts(p, a, b, x, y);
    one := p > 0.0 && x > 0.0;
    if one {
      BelowOneLoses(p, a, x);
    } else {
      assert p * x == 0.0;
      assert (1.0 - p) * y > 0.0;
      assert p < 1.0 && y > 0.0;
      BelowOneLoses(1.0 - p, b, y);
    }
  }

  lemma MixAtEnd(p: real, a: real, b: real)
    ensures p == 1.0 ==> Mix(p, a, b) == a
    ensures p == 0.0 ==> Mix(p, a, b) == b
  {
  }

  /** If the squared sum loses nothing of a positive joint probability, the walk under the static probabilities is
      certain to end away from `phase`, and yet `phase` can be reached. */
  lemma {:induction false} NothingLostMeansFrozen(next: Edge, e: Edge, c: seq<Literal>, f: seq<Info>, phase: bool)
    requires |c| == |f| && Within(next, |f|) && Within(e, |f|) && Chains(f) && Frozen(c, f)
    requires SwitchSum(next, e, c, f, phase) == JointProb(next, e, c, f, phase) > 0.0
    ensures Reach(e, Statics(f), phase) == 0.0 && Reach(next, Statics(f), phase) > 0.0
    decreases e.node
  {
    if e.node.Node? {
      var v := e.node.index;
      var p, c1, c0 := f[v].staticProb, c[v := ONE], c[v := ZERO];
      SwitchBelowJoint(next, If1(e), c1, f, phase);
      SwitchBelowJoint(next, If0(e), c0, f, phase);
      var one := NothingLost(p, SwitchSum(next, If1(e), c1, f, phase), SwitchSum(next, If0(e), c0, f, phase),
                             JointProb(next, If1(e), c1, f, phase), JointProb(next, If0(e), c0, f, phase));
      BranchFrozen(c, f, v);
      MixAtEnd(p, Reach(If1(e), Statics(f), phase), Reach(If0(e), Statics(f), phase));
      if one {
        NothingLostMeansFrozen(next, If1(e), c1, f, phase);
      } else {
        NothingLostMeansFrozen(next, If0(e), c0, f, phase);
      }
    }
  }

  /** The enumeration returns the joint probability only when that is 0. */
  lemma SwitchSumIsJointExactly(e: Edge, f: seq<Info>, phase: bool)
    requires Within(e, |f|) && ReadOnce(e) && Chains(f)
    ensures SwitchSum(e, e, DontCare(|f|), f, phase) == JointProb(e, e, DontCare(|f|), f, phase)
            <==> JointProb(e, e, DontCare(|f|), f, phase) == 0.0
  {
    var dc := DontCare(|f|);
    ActivityBound(e, f, phase);
    assert NextWeights(dc, f) == Statics(f);
    if SwitchSum(e, e, dc, f, phase) == JointProb(e, e, dc, f, phase) > 0.0 {
      NothingLostMeansFrozen(e, e, dc, f, phase);
      assert false;
    }
  }

  /** A current and a next assignment of the inputs, both possible, between which the walk moves to `phase`. */
  ghost predicate Moves(e: Edge, f: seq<Info>, phase: bool, a: seq<bool>, b: seq<bool>)
    requires Within(e, |f|)
  {
    && Possible(Statics(f), a) && Possible(NextWeights(CubeOf(a), f), b)
    && Walk(e, a) != phase && Walk(e, b) == phase
  }

  ghost predicate CanMove(e: Edge, f: seq<Info>, phase: bool)
    requires Within(e, |f|)
  {
    exists a: seq<bool>, b: seq<bool> :: Moves(e, f, phase, a, b)
  }

  lemma LeavesOnlyByMove(e: Edge, f: seq<Info>, phase: bool, a: seq<bool>)
    requires Within(e, |f|) && Chains(f) && |a| == |f|
    ensures SwitchesTo(e, f, phase)(a) >= 0.0
    ensures SwitchesTo(e, f, phase)(a) == 0.0 <==>
            (Walk(e, a) == phase || forall b: seq<bool> | Possible(NextWeights(CubeOf(a), f), b) :: Walk(e, b) != phase)
  {
    var ws, g := NextWeights(CubeOf(a), f), Ends(e, |f|, phase);
    NextWeightsAreProbabilities(CubeOf(a), f);
    ExpVanishesExactly(ws, g);
    assert Vanishes(ws, g) <==> forall b: seq<bool> | Possible(ws, b) :: Walk(e, b) != phase by {
      assert forall b: seq<bool> | Possible(ws, b) :: g(b) == 0.0 <==> Walk(e, b) != phase;
    }
  }

  /** The joint probability is 0 exactly if no possible step of the inputs moves the walk to `phase`. */
  lemma JointVanishesExactly(e: Edge, f: seq<Info>, phase: bool)
    requires Within(e, |f|) && ReadOnce(e) && Chains(f)
    ensures JointProb(e, e, DontCare(|f|), f, phase) == 0.0 <==> !CanMove(e, f, phase)
  {
    var g := SwitchesTo(e, f, phase);
    JointIsSwitchProbability(e, f, phase);
    forall a: seq<bool> | |a| == |f|
      ensures g(a) >= 0.0
      ensures g(a) == 0.0
              <==> (Walk(e, a) == phase || forall b: seq<bool> | Possible(NextWeights(CubeOf(a), f), b) ::
                Walk(e, b) != phase)
    {
      LeavesOnlyByMove(e, f, phase, a);
    }
    ExpVanishesExactly(Statics(f), g);
    if CanMove(e, f, phase) {
      var a: seq<bool>, b: seq<bool> :| Moves(e, f, phase, a, b);
      assert g(a) != 0.0;
    } else {
      forall a: seq<bool> | Possible(Statics(f), a) ensures g(a) == 0.0 {
        forall b: seq<bool> | Walk(e, a) != phase && Possible(NextWeights(CubeOf(a), f), b)
          ensures Walk(e, b) != phase
        {
          assert !Moves(e, f, phase, a, b);
        }
      }
    }
  }

  /** So the estimate falls short of the joint probability exactly if the node can move to `phase` at all. */
  lemma UnderestimatesExactly(e: Edge, f: seq<Info>, phase: bool)
    requires Within(e, |f|) && ReadOnce(e) && Chains(f)
    ensures SwitchSum(e, e, DontCare(|f|), f, phase) < JointProb(e, e, DontCare(|f|), f, phase)
            <==> CanMove(e, f, phase)
  {
    ActivityBound(e, f, phase);
    SwitchSumIsJointExactly(e, f, phase);
    JointVanishesExactly(e, f, phase);
  }
}
