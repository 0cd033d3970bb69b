/** The procedures of ace2/bdd.c: the memoised probability, the path enumeration over packed cubes,
    the path counts, and the switching activity of one node. */
module BddCalc {
  import opened AceInfo
  import opened Cube
  import opened Expectation
  import opened Bdd
  import opened BddSwitch
  import opened BddPaths

  // ---------------------------------------------------------------- path counts

  /** `ace_bdd_count_paths` bumps two counters through pointers. */
  class PathCounters {
    var ones: nat
    var zeros: nat

    constructor ()
      ensures ones == 0 && zeros == 0
    {
      ones, zeros := 0, 0;
    }
  }

  /** The code follows the raw children, without swapping on a complemented edge; the totals are the same. */
  method AceBddCountPaths(bdd: Edge, counters: PathCounters)
    modifies counters
    ensures counters.ones == old(counters.ones) + |PathsTo(bdd, true)|
    ensures counters.zeros == old(counters.zeros) + |PathsTo(bdd, false)|
    decreases bdd.node
  {
    match bdd.node {
      case One =>
        if bdd.complement {
          counters.zeros := counters.zeros + 1;
        } else {
          counters.ones := counters.ones + 1;
        }
      case Node(_, t, e) =>
        AceBddCountPaths(t, counters);
        AceBddCountPaths(e, counters);
    }
  }

  /** There is a path to a leaf exactly if some assignment ends there. */
  lemma {:induction false} PathsMeanAssignments(e: Edge, n: nat, phase: bool)
    requires Within(e, n) && ReadOnce(e)
    ensures PathsTo(e, phase) != [] <==> exists a: seq<bool> :: |a| == n && Walk(e, a) == phase
    decreases e.node
  {
    if e.node.One? {
      var a := seq(n, _ => false);
      assert Walk(e, a) == !e.complement;
    } else {
      PathsMeanAssignments(If1(e), n, phase);
      PathsMeanAssignments(If0(e), n, phase);
      assert |PathsTo(e, phase)| == |PathsTo(If1(e), phase)| + |PathsTo(If0(e), phase)|;
      if PathsTo(e, phase) != [] {
        var b := PathsTo(If1(e), phase) != [];
        var child := if b then If1(e) else If0(e);
        var a: seq<bool> :| |a| == n && Walk(child, a) == phase;
        WalkIgnores(child, a, e.node.index, b);
        assert Walk(e, a[e.node.index := b]) == phase;
      }
    }
  }

  lemma {:induction false} SomePath(e: Edge)
    ensures |PathsTo(e, true)| + |PathsTo(e, false)| > 0
    decreases e.node
  {
    if e.node.Node? {
      SomePath(If1(e));
    }
  }

  /** The phase the code asks for: the leaf that more paths reach. */
  ghost function MajorityPhase(bdd: Edge): bool {
    |PathsTo(bdd, true)| > |PathsTo(bdd, false)|
  }

  /** The phase asked for is one that the node can take. */
  lemma MajorityPhaseIsTaken(bdd: Edge, n: nat)
    requires Within(bdd, n) && ReadOnce(bdd)
    ensures exists a: seq<bool> :: |a| == n && Walk(bdd, a) == MajorityPhase(bdd)
  {
    SomePath(bdd);
    PathsMeanAssignments(bdd, n, MajorityPhase(bdd));
  }

  // ---------------------------------------------------------------- the memoised probability

  class Visited {
    var table: map<Edge, real>

    constructor ()
      ensures table == map[]
    {
      table := map[];
    }
  }

  /** Every entry is the value of the plain recursion. */
  ghost predicate Sound(table: map<Edge, real>, c: seq<Literal>, f: seq<Info>, phase: bool)
    requires |c| == |f|
  {
    forall e | e in table :: Within(e, |f|) && table[e] == CubeSwitchProb(e, c, f, phase)
  }

  method CalcCubeSwitchProbRecur(bdd: Edge, cube: AceCube, fanins: seq<Info>, visited: Visited, phase: bool)
    returns (prob: real)
    requires cube.Valid() && cube.numLiterals == |fanins| && Within(bdd, |fanins|) && Probable(fanins)
    requires Sound(visited.table, cube.Literals(), fanins, phase)
    modifies visited
    ensures prob == CubeSwitchProb(bdd, cube.Literals(), fanins, phase) && 0.0 <= prob <= 1.0
    ensures Sound(visited.table, cube.Literals(), fanins, phase)
    ensures old(visited.table).Keys <= visited.table.Keys && (bdd.node.Node? ==> bdd in visited.table)
    decreases bdd.node
  {
    ghost var c := cube.Literals();
    CubeSwitchProbInUnit(bdd, c, fanins, phase);
    if bdd.node.One? {
      return if phase == !bdd.complement then 1.0 else 0.0;
    }
    if bdd in visited.table {
      return visited.table[bdd];
    }
    var i := bdd.node.index;
    var thenProb := CalcCubeSwitchProbRecur(If1(bdd), cube, fanins, visited, phase);
    var elseProb := CalcCubeSwitchProbRecur(If0(bdd), cube, fanins, visited, phase);
    var reading := NodeGetLiteral(cube, i);
    assert reading == Good(c[i]);
    prob := Combine(reading.literal, fanins[i], thenProb, elseProb);
    visited.table := visited.table[bdd := prob];
  }

  /** The switch on the literal. */
  function Combine(l: Literal, f: Info, thenProb: real, elseProb: real): (prob: real)
    ensures prob == Mix(NextWeight(l, f), thenProb, elseProb)
  {
    match l
    case ZERO => f.prob0to1 * thenProb + (1.0 - f.prob0to1) * elseProb
    case ONE => (1.0 - f.prob1to0) * thenProb + f.prob1to0 * elseProb
    case TWO => f.staticProb * thenProb + (1.0 - f.staticProb) * elseProb
  }

  method CalcCubeSwitchProb(bdd: Edge, cube: AceCube, fanins: seq<Info>, phase: bool) returns (prob: real)
    requires cube.Valid() && cube.numLiterals == |fanins| && Within(bdd, |fanins|) && Probable(fanins)
    ensures prob == CubeSwitchProb(bdd, cube.Literals(), fanins, phase) && 0.0 <= prob <= 1.0
  {
    var visited := new Visited();
    prob := CalcCubeSwitchProbRecur(bdd, cube, fanins, visited, phase);
  }

  // ---------------------------------------------------------------- the path enumeration

  /** Every call finds in its packed cube exactly the branches that led to it; the caller's cube is never written.
      The value is the square of the weight passed in, times the sum over the paths below.  When that weight is the one
      of the branches taken, it is the explicit sum over all paths that go on from there. */
  method CalcSwitchProbRecur(bddNext: Edge, bdd: Edge, cube: AceCube, fanins: seq<Info>, p1: real, phase: bool,
                             ghost path: seq<Branch>, ghost c: seq<Literal>)
    returns (prob: real)
    requires |fanins| > 0 && 0.0 <= p1 <= 1.0 && Probable(fanins)
    requires Within(bddNext, |fanins|) && Within(bdd, |fanins|) && ReadOnce(bddNext) && ReadOnce(bdd)
    requires InRange(path, |fanins|) && Untested(bdd, path)
    requires cube.Valid() && cube.Literals() == c == PathCube(path, |fanins|)
    ensures prob == Twice(p1, SwitchSum(bddNext, bdd, c, fanins, phase)) && 0.0 <= prob <= 1.0
    ensures p1 == PathWeight(path, fanins) ==>
              prob == Sum(From(path, PathsTo(bdd, !phase)), SquareTerm(bddNext, fanins, phase))
    decreases bdd.node
  {
    SwitchSumFrom(bddNext, bdd, path, fanins, phase);
    if bdd.node.One? {
      prob := LeafSwitchProb(bddNext, bdd, cube, fanins, p1, phase);
      return;
    }
    ChildrenFit(bdd, path, |fanins|);
    var i := bdd.node.index;
    var p := fanins[i].staticProb;
    var w1, w0 := p1 * p, p1 * (1.0 - p);
    assert 0.0 <= w1 <= 1.0 && 0.0 <= w0 <= 1.0 by { BranchInUnit(p1, p); }

    var cube1 := BranchCube(cube, i, ONE);
    PathCubeOfBranch(path, |fanins|, i, true);
    var switchProbT := CalcSwitchProbRecur(bddNext, If1(bdd), cube1, fanins, w1, phase,
      path + [Branch(i, true)], c[i := ONE]);

    var cube0 := BranchCube(cube, i, ZERO);
    PathCubeOfBranch(path, |fanins|, i, false);
    var switchProbE := CalcSwitchProbRecur(bddNext, If0(bdd), cube0, fanins, w0, phase,
      path + [Branch(i, false)], c[i := ZERO]);

    prob := switchProbT + switchProbE;
    ghost var s1 := SwitchSum(bddNext, If1(bdd), c[i := ONE], fanins, phase);
    ghost var s0 := SwitchSum(bddNext, If0(bdd), c[i := ZERO], fanins, phase);
    ghost var sum := SwitchSum(bddNext, bdd, c, fanins, phase);
    assert sum == SquareMix(p, s1, s0);
    SquareStep(p1, p, w1, w0, s1, s0, switchProbT, switchProbE, sum);
    assert 0.0 <= prob <= 1.0 by {
      SwitchSumInUnit(bddNext, bdd, c, fanins, phase);
      LeafInUnit(p1, sum);
    }
  }

  /** A leaf other than `phase` contributes; the weight is multiplied in twice. */
  method LeafSwitchProb(bddNext: Edge, bdd: Edge, cube: AceCube, fanins: seq<Info>, p1: real, phase: bool)
    returns (prob: real)
    requires 0.0 <= p1 <= 1.0 && Probable(fanins) && Within(bddNext, |fanins|) && bdd.node.One?
    requires cube.Valid() && cube.numLiterals == |fanins|
    ensures prob == Twice(p1, SwitchSum(bddNext, bdd, cube.Literals(), fanins, phase)) && 0.0 <= prob <= 1.0
  {
    if phase == !bdd.complement {
      return 0.0;
    }
    prob := CalcCubeSwitchProb(bddNext, cube, fanins, phase);
    LeafInUnit(p1, prob);
    prob := prob * p1;
    assert 0.0 <= prob <= 1.0;
    return prob * p1;
  }

  /** A private copy of the cube with literal `i` set: the caller's cube stays as it is. */
  method BranchCube(cube: AceCube, i: nat, l: Literal) returns (copy: AceCube)
    requires cube.Valid() && i < cube.numLiterals
    ensures fresh(copy) && fresh(copy.cube) && copy.Valid() && copy.numLiterals == cube.numLiterals
    ensures copy.Literals() == cube.Literals()[i := l]
  {
    copy := AceCubeDup(cube);
    StoreLiteral(copy.cube, copy.numLiterals, i, l);
  }

  lemma LeafInUnit(w: real, x: real)
    requires 0.0 <= w <= 1.0 && 0.0 <= x <= 1.0
    ensures 0.0 <= x * w <= 1.0 && 0.0 <= Twice(w, x) <= 1.0 && x * w * w == Twice(w, x)
  {
    var y := w * x;
    Shrinks(w, x);
    Shrinks(w, y);
    Reassociate(w, x);
  }

  lemma Reassociate(w: real, x: real)
    ensures x * w == w * x && x * w * w == w * (w * x) == Twice(w, x)
  {
  }

  lemma BranchInUnit(w: real, p: real)
    requires 0.0 <= w <= 1.0 && 0.0 <= p <= 1.0
    ensures 0.0 <= w * p <= 1.0 && 0.0 <= w * (1.0 - p) <= 1.0
  {
    Shrinks(w, p);
    Shrinks(w, 1.0 - p);
  }

  lemma {:induction false} SwitchSumInUnit(next: Edge, e: Edge, c: seq<Literal>, f: seq<Info>, phase: bool)
    requires |c| == |f| && Within(next, |f|) && Within(e, |f|) && Probable(f)
    ensures 0.0 <= SwitchSum(next, e, c, f, phase) <= 1.0
  {
    SwitchBelowJoint(next, e, c, f, phase);
    JointBelowOtherLeaf(next, e, c, f, phase);
    ReachIsProbability(e, Statics(f), !phase);
  }

  // ---------------------------------------------------------------- one node

  /** `d = (int) d * 0.4; if (d < 1) d = 1`. */
  function DepthScale(depth: int): (d: int)
    requires depth > 0
    ensures d >= 1
  {
    var d := depth * 2 / 5;
    if d < 1 then 1 else d
  }

  /** The clamps accept the two transition probabilities of a fanin. */
  predicate ClampHolds(i: Info, d: int)
    requires d >= 1
  {
    && EpsilonFix(P0to1(i.staticProb, i.switchProb / d as real)).Some?
    && EpsilonFix(P1to0(i.staticProb, i.switchProb / d as real)).Some?
  }

  function WithChain(i: Info, d: int): Info
    requires d >= 1
  {
    i.(prob0to1 := Clamp(P0to1(i.staticProb, i.switchProb / d as real)),
      prob1to0 := Clamp(P1to0(i.staticProb, i.switchProb / d as real)))
  }

  ghost function WithChains(s: seq<Info>, fanins: seq<nat>, d: int): seq<Info>
    requires d >= 1
  {
    seq(|s|, o requires 0 <= o < |s| => if o in fanins then WithChain(s[o], d) else s[o])
  }

  ghost function Fetch(s: seq<Info>, fanins: seq<nat>): (f: seq<Info>)
    requires forall i | 0 <= i < |fanins| :: fanins[i] < |s|
    ensures |f| == |fanins|
  {
    seq(|fanins|, i requires 0 <= i < |fanins| => s[fanins[i]])
  }

  ghost predicate FaninsConsistent(s: seq<Info>, fanins: seq<nat>) {
    forall i | 0 <= i < |fanins| :: fanins[i] < |s| && Consistent(s[fanins[i]].staticProb, s[fanins[i]].switchProb)
  }

  lemma ConsistentChain(i: Info, d: int)
    requires Consistent(i.staticProb, i.switchProb) && d >= 1
    ensures ClampHolds(i, d)
    ensures var f := WithChain(i, d); Stationary(f.staticProb, f.prob0to1, f.prob1to0)
  {
    ScalingStaysConsistent(i.staticProb, i.switchProb, d);
    MacrosAreStationary(i.staticProb, i.switchProb / d as real);
  }

  lemma ChainsAreStationary(s: seq<Info>, fanins: seq<nat>, d: int)
    requires FaninsConsistent(s, fanins) && d >= 1
    ensures Chains(Fetch(WithChains(s, fanins, d), fanins))
    ensures forall i | 0 <= i < |fanins| :: ClampHolds(s[fanins[i]], d)
  {
    forall i | 0 <= i < |fanins|
      ensures ClampHolds(s[fanins[i]], d)
      ensures var f := Fetch(WithChains(s, fanins, d), fanins)[i]; Stationary(f.staticProb, f.prob0to1, f.prob1to0)
    {
      ConsistentChain(s[fanins[i]], d);
    }
  }

  /** From the fraction `q` of its time a signal leaves with the rate `s / r`, as far as a probability allows. */
  ghost predicate LeavesAt(q: real, s: real, r: real, x: real) {
    if s <= r * q then r * q * x == s else x == 1.0
  }

  /** The signal is at 1 for the fraction `p` of its time and, as far as probabilities allow, changes with `1 / d` of
      the rate `s`: half of that upwards and half of it downwards.  A signal stuck at 0 would leave a 1 at once, and
      one stuck at 1 a 0. */
  ghost predicate MovesAt(p: real, s: real, d: int, up: real, down: real) {
    && (p == 0.0 ==> up == 0.0 && down == 1.0)
    && (p == 1.0 ==> up == 1.0 && LeavesAt(p, s, 2.0 * d as real, down))
    && (0.0 < p < 1.0 ==> LeavesAt(1.0 - p, s, 2.0 * d as real, up) && LeavesAt(p, s, 2.0 * d as real, down))
  }

  lemma ClampedRate(s: real, d: real, q: real, r: real, x: real)
    requires 0.0 <= s && d >= 1.0 && q > 0.0 && r == 2.0 * d && x == 0.5 * (s / d) / q
    ensures LeavesAt(q, s, r, Clamp(x))
  {
    var t := s / d;
    assert t * d == s && x * q == 0.5 * t;
    assert r * q * x == 2.0 * d * (x * q) == s;
    PositiveFactor(r, q);
    SignOf(x, r * q, s);
  }

  lemma PositiveFactor(r: real, q: real)
    requires r > 0.0 && q > 0.0
    ensures r * q > 0.0
  {
  }

  lemma SignOf(x: real, m: real, s: real)
    requires m > 0.0 && m * x == s && 0.0 <= s
    ensures 0.0 <= x && (s <= m <==> x <= 1.0)
  {
    assert x < 0.0 ==> m * x < 0.0;
    assert x <= 1.0 ==> m * x <= m * 1.0;
    assert x > 1.0 ==> m * (x - 1.0) > 0.0;
  }

  lemma MacroRates(p: real, s: real, d: real, r: real)
    requires 0.0 <= s && d >= 1.0 && r == 2.0 * d
    ensures 0.0 < p < 1.0 ==> LeavesAt(1.0 - p, s, r, Clamp(P0to1(p, s / d)))
    ensures 0.0 < p <= 1.0 ==> LeavesAt(p, s, r, Clamp(P1to0(p, s / d)))
  {
    if 0.0 < p {
      ClampedRate(s, d, p, r, P1to0(p, s / d));
    }
    if 0.0 < p < 1.0 {
      ClampedRate(s, d, 1.0 - p, r, P0to1(p, s / d));
    }
  }

  lemma ChainMoves(i: Info, d: int)
    requires 0.0 <= i.staticProb <= 1.0 && 0.0 <= i.switchProb && d >= 1
    ensures var f := WithChain(i, d); MovesAt(i.staticProb, i.switchProb, d, f.prob0to1, f.prob1to0)
  {
    MacroRates(i.staticProb, i.switchProb, d as real, 2.0 * d as real);
  }

  /** For probabilities that some signal has: it goes up as often as down, and each half of `1 / d` of the rate. */
  lemma ConsistentMoves(p: real, s: real, d: int, up: real, down: real)
    requires Consistent(p, s) && d >= 1 && MovesAt(p, s, d, up, down)
    ensures 0.0 < p < 1.0 ==> (1.0 - p) * up == s / (2.0 * d as real) == p * down
    ensures p == 0.0 ==> up == 0.0 && down == 1.0
    ensures p == 1.0 ==> up == 1.0 && down == 0.0
  {
    var r := 2.0 * d as real;
    if 0.0 < p {
      SharedRate(s, r, p, down);
    }
    if 0.0 < p < 1.0 {
      SharedRate(s, r, 1.0 - p, up);
    }
  }

  lemma SharedRate(s: real, r: real, q: real, x: real)
    requires 0.0 <= s <= 2.0 * q && r >= 2.0 && q > 0.0
    requires LeavesAt(q, s, r, x)
    ensures q * x == s / r && (s == 0.0 ==> x == 0.0)
  {
    assert (r - 2.0) * q >= 0.0;
    assert r * (q * x) == s;
    PositiveFactor(r, q);
    assert x > 0.0 ==> r * q * x > 0.0;
    assert x < 0.0 ==> r * q * x < 0.0;
    assert (s / r) * r == s;
    assert r * (q * x - s / r) == 0.0;
  }

  lemma QuotientBelow(x: real, q: real, t: real, e: real)
    requires q > 0.0 && x * q == t
    ensures x < e <==> t < q * e
  {
    assert x < e ==> (e - x) * q > 0.0;
    assert x >= e ==> (x - e) * q >= 0.0;
    assert (e - x) * q == q * e - t;
  }

  lemma QuotientAbove(x: real, q: real, t: real)
    requires q > 0.0 && x * q == t && 0.0 <= t
    ensures x >= 0.0
  {
    assert x < 0.0 ==> x * q < 0.0;
  }

  /** One macro passes the clamp. */
  lemma RatePasses(s: real, d: real, q: real, x: real)
    requires 0.0 <= s && d >= 1.0 && q > 0.0 && x == 0.5 * (s / d) / q
    ensures EpsilonFix(x).Some? <==> s < 2.0 * d * q * (1.0 + EPSILON)
  {
    var t := s / d;
    var m := 2.0 * d * q;
    assert t * d == s && x * q == 0.5 * t;
    assert x * m == 2.0 * d * (x * q) == s;
    PositiveFactor(d, q);
    assert m == 2.0 * (d * q);
    QuotientBelow(x, m, s, 1.0 + EPSILON);
    QuotientAbove(x, m, s);
    EpsilonFixClamps(x);
  }

  /** The clamps abort exactly if the rate is more than EPSILON above what the time at 0, or at 1, leaves room for. */
  lemma ClampHoldsExactly(i: Info, d: int)
    requires 0.0 <= i.staticProb <= 1.0 && 0.0 <= i.switchProb && d >= 1
    ensures ClampHolds(i, d) <==>
            && (0.0 < i.staticProb < 1.0 ==>
                  i.switchProb < 2.0 * d as real * (1.0 - i.staticProb) * (1.0 + EPSILON))
            && (0.0 < i.staticProb ==> i.switchProb < 2.0 * d as real * i.staticProb * (1.0 + EPSILON))
  {
    var p, s := i.staticProb, i.switchProb;
    if 0.0 < p {
      RatePasses(s, d as real, p, P1to0(p, s / d as real));
    }
    if 0.0 < p < 1.0 {
      RatePasses(s, d as real, 1.0 - p, P0to1(p, s / d as real));
    }
  }

  /** The records differ in the transition probabilities of the fanins only, and there each is that of `MovesAt`. */
  ghost predicate ChainsMove(s: seq<Info>, t: seq<Info>, fanins: seq<nat>, d: int) {
    |s| == |t| && forall o: nat | o < |s| ::
      && t[o] == s[o].(prob0to1 := t[o].prob0to1, prob1to0 := t[o].prob1to0)
      && (o !in fanins ==> t[o] == s[o])
      && (o in fanins && 0.0 <= s[o].staticProb <= 1.0 && 0.0 <= s[o].switchProb ==>
            MovesAt(s[o].staticProb, s[o].switchProb, d, t[o].prob0to1, t[o].prob1to0))
  }

  lemma WithChainsMove(s: seq<Info>, fanins: seq<nat>, d: int)
    requires d >= 1
    ensures ChainsMove(s, WithChains(s, fanins, d), fanins, d)
  {
    forall o: nat | o < |s| && o in fanins && 0.0 <= s[o].staticProb <= 1.0 && 0.0 <= s[o].switchProb
      ensures var t := WithChains(s, fanins, d)[o]; MovesAt(s[o].staticProb, s[o].switchProb, d, t.prob0to1, t.prob1to0)
    {
      ChainMoves(s[o], d);
    }
  }

  /** Writes the transition probabilities of the fanins; fails exactly when a clamp aborts. */
  method SetTransitionProbs(info: array<Info>, fanins: seq<nat>, d: int) returns (ok: bool)
    requires d >= 1 && forall i | 0 <= i < |fanins| :: fanins[i] < info.Length
    modifies info
    ensures ok <==> forall i | 0 <= i < |fanins| :: ClampHolds(old(info[..])[fanins[i]], d)
    ensures ok ==> info[..] == WithChains(old(info[..]), fanins, d) && ChainsMove(old(info[..]), info[..], fanins, d)
  {
    WithChainsMove(info[..], fanins, d);
    ghost var before := info[..];
    for i := 0 to |fanins|
      invariant info[..] == WithChains(before, fanins[..i], d)
      invariant forall j | 0 <= j < i :: ClampHolds(before[fanins[j]], d)
    {
      var o := fanins[i];
      var p, s := info[o].staticProb, info[o].switchProb / d as real;
      assert before[o].staticProb == p && before[o].switchProb == info[o].switchProb;
      var up := EpsilonFix(P0to1(p, s));
      var down := EpsilonFix(P1to0(p, s));
      if up.None? || down.None? {
        assert !ClampHolds(before[fanins[i]], d);
        return false;
      }
      EpsilonFixClamps(P0to1(p, s));
      EpsilonFixClamps(P1to0(p, s));
      info[o] := info[o].(prob0to1 := up.value, prob1to0 := down.value);
      assert info[o] == WithChain(before[o], d);
    }
    assert fanins[..|fanins|] == fanins;
    return true;
  }

  /** `2.0 * x * (double) d`. */
  function Scaled(x: real, d: int): real {
    2.0 * x * d as real
  }

  /** The depth factor is two fifths of the depth, rounded down, but at least 1. */
  lemma DepthScaleExactly(depth: int, d: int)
    requires depth > 0
    ensures DepthScale(depth) == d <==> if depth < 5 then d == 1 else 5 * d <= 2 * depth < 5 * (d + 1)
  {
  }

  /** What the enumeration gives for a node, scaled by its depth. */
  ghost function Estimate(bdd: Edge, f: seq<Info>, d: int): real
    requires Within(bdd, |f|)
  {
    Scaled(SwitchSum(bdd, bdd, DontCare(|f|), f, MajorityPhase(bdd)), d)
  }

  /** From consistent fanins the estimate is at most `2 d` times the chance of either phase. */
  lemma EstimateBelowPhases(bdd: Edge, f: seq<Info>, d: int)
    requires Within(bdd, |f|) && ReadOnce(bdd) && Chains(f) && d >= 1
    ensures var q, r := Reach(bdd, Statics(f), MajorityPhase(bdd)), Reach(bdd, Statics(f), !MajorityPhase(bdd));
            0.0 <= Estimate(bdd, f, d) <= Scaled(q, d) && Estimate(bdd, f, d) <= Scaled(r, d) && q + r == 1.0
  {
    var phase := MajorityPhase(bdd);
    var sum := SwitchSum(bdd, bdd, DontCare(|f|), f, phase);
    ActivityBound(bdd, f, phase);
    PhasesSumToOne(bdd, Statics(f));
    ScaledMonotone(sum, Reach(bdd, Statics(f), phase), d);
    ScaledMonotone(sum, Reach(bdd, Statics(f), !phase), d);
  }

  /** The explicit sum: over the paths to the leaf that fewer of them reach (the one leaf if there are as many), the
      square of the weight of the path times the chance of the other leaf after it. */
  ghost function PathEstimate(bdd: Edge, f: seq<Info>): real
    requires Within(bdd, |f|)
  {
    var phase := |PathsTo(bdd, true)| > |PathsTo(bdd, false)|;
    Sum(PathsTo(bdd, !phase), SquareTerm(bdd, f, phase))
  }

  lemma PathEstimateIsSum(bdd: Edge, f: seq<Info>)
    requires Within(bdd, |f|) && ReadOnce(bdd)
    ensures SwitchSum(bdd, bdd, DontCare(|f|), f, MajorityPhase(bdd)) == PathEstimate(bdd, f)
  {
    SwitchSumIsPathSum(bdd, f, MajorityPhase(bdd));
  }

  lemma EstimateFromSum(bdd: Edge, f: seq<Info>, d: int) returns (sum: real)
    requires Within(bdd, |f|) && ReadOnce(bdd)
    ensures sum == PathEstimate(bdd, f) && Estimate(bdd, f, d) == Scaled(sum, d)
  {
    sum := PathEstimate(bdd, f);
    PathEstimateIsSum(bdd, f);
  }

  lemma ScaledIs(x: real, sum: real, d: int)
    requires x == Scaled(sum, d)
    ensures x == 2.0 * d as real * sum
  {
  }

  /** The estimate is `2 d` times that sum. */
  lemma EstimateIsExplicit(bdd: Edge, f: seq<Info>, d: int) returns (sum: real)
    requires Within(bdd, |f|) && ReadOnce(bdd)
    ensures sum == PathEstimate(bdd, f) && Estimate(bdd, f, d) == 2.0 * d as real * sum
  {
    sum := EstimateFromSum(bdd, f, d);
    ScaledIs(Estimate(bdd, f, d), sum, d);
  }

  /** None when a clamp aborts; no other assertion can fail. */
  method AceBddCalcSwitchAct(info: array<Info>, obj: nat, bdd: Edge, fanins: seq<nat>) returns (switchAct: Option<real>)
    requires obj < info.Length && info[obj].depth > 0
    requires forall i | 0 <= i < |fanins| :: fanins[i] < info.Length && 0.0 <= info[fanins[i]].staticProb <= 1.0
    requires Within(bdd, |fanins|) && ReadOnce(bdd)
    modifies info
    ensures |fanins| == 0 ==> switchAct == Some(0.5) && info[..] == old(info[..])
    ensures |fanins| > 0 ==>
              var d := DepthScale(old(info[obj].depth));
              && (switchAct.Some? <==> forall i | 0 <= i < |fanins| :: ClampHolds(old(info[..])[fanins[i]], d))
              && (switchAct.Some? ==>
                    && info[..] == WithChains(old(info[..]), fanins, d)
                    && ChainsMove(old(info[..]), info[..], fanins, d)
                    && switchAct.value == Estimate(bdd, Fetch(info[..], fanins), d) && switchAct.value >= 0.0)
  {
    var d := DepthScale(info[obj].depth);
    if |fanins| < 1 {
      return Some(0.5);
    }
    var counters := new PathCounters();
    AceBddCountPaths(bdd, counters);
    var n1, n0 := counters.ones, counters.zeros;
    ghost var before := info[..];
    var ok := SetTransitionProbs(info, fanins, d);
    if !ok {
      return None;
    }
    var cube := AceCubeNewDc(|fanins|);
    var f := seq(|fanins|, i requires 0 <= i < |fanins| && fanins[i] < info.Length reads info => info[fanins[i]]);
    assert f == Fetch(info[..], fanins);
    FetchedProbable(before, fanins, d);
    assert cube.Literals() == PathCube([], |f|) == DontCare(|f|);
    var phase := n1 > n0;
    var prob := CalcSwitchProbRecur(bdd, bdd, cube, f, 1.0, phase, [], DontCare(|f|));
    assert prob == SwitchSum(bdd, bdd, DontCare(|f|), f, phase) >= 0.0;
    ScaledMonotone(0.0, prob, d);
    switchAct := Some(Scaled(prob, d));
  }

  lemma FetchedProbable(s: seq<Info>, fanins: seq<nat>, d: int)
    requires d >= 1 && forall i | 0 <= i < |fanins| :: fanins[i] < |s| && 0.0 <= s[fanins[i]].staticProb <= 1.0
    ensures Probable(Fetch(WithChains(s, fanins, d), fanins))
  {
  }

  lemma ScaledMonotone(x: real, y: real, d: int)
    requires 0.0 <= x <= y && 0 <= d
    ensures 0.0 <= Scaled(x, d) <= Scaled(y, d)
  {
    var r := d as real;
    assert 0.0 <= r * (y - x);
    assert 0.0 <= r * x;
  }
}
