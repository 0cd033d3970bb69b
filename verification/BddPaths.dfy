/** The root-to-leaf paths of the code's walk, and what `calc_switch_prob_recur` adds up as an explicit sum over them
    (ace2/bdd.c). */
module BddPaths {
  import opened AceInfo
  import opened Cube
  import opened Expectation
  import opened Bdd
  import opened BddSwitch

  /** One step down a diagram: the variable tested, and whether the THEN branch was taken. */
  datatype Branch = Branch(index: nat, taken: bool)

  // ---------------------------------------------------------------- the paths

  /** The paths `ps`, each continued from `q`. */
  ghost function From(q: seq<Branch>, ps: seq<seq<Branch>>): (r: seq<seq<Branch>>)
    ensures |r| == |ps|
  {
    seq(|ps|, i requires 0 <= i < |ps| => q + ps[i])
  }

  /** The paths that end at leaf `phase`, in the order in which the code enumerates them. */
  ghost function PathsTo(e: Edge, phase: bool): seq<seq<Branch>>
    decreases e.node
  {
    if e.node.One? then (if phase == !e.complement then [[]] else [])
    else
      var v := e.node.index;
      From([Branch(v, true)], PathsTo(If1(e), phase)) + From([Branch(v, false)], PathsTo(If0(e), phase))
  }

  /** The branches lead from `e` to leaf `phase`. */
  ghost predicate LeadsTo(e: Edge, q: seq<Branch>, phase: bool)
    decreases |q|
  {
    if q == [] then e.node.One? && phase == !e.complement
    else
      && e.node.Node? && q[0].index == e.node.index
      && LeadsTo(if q[0].taken then If1(e) else If0(e), q[1..], phase)
  }

  lemma InFrom(b: Branch, ps: seq<seq<Branch>>, q: seq<Branch>)
    ensures q in From([b], ps) <==> q != [] && q[0] == b && q[1..] in ps
  {
    var r := From([b], ps);
    if q in r {
      var i :| 0 <= i < |r| && r[i] == q;
      assert q == [b] + ps[i];
      assert q[1..] == ps[i];
    }
    if q != [] && q[0] == b && q[1..] in ps {
      var i :| 0 <= i < |ps| && ps[i] == q[1..];
      assert r[i] == [b] + ps[i] == q;
    }
  }

  /** The list holds exactly the paths to the leaf. */
  lemma {:induction false} PathsExactly(e: Edge, q: seq<Branch>, phase: bool)
    ensures q in PathsTo(e, phase) <==> LeadsTo(e, q, phase)
    decreases e.node
  {
    if e.node.Node? {
      InFrom(Branch(e.node.index, true), PathsTo(If1(e), phase), q);
      InFrom(Branch(e.node.index, false), PathsTo(If0(e), phase), q);
      if q != [] {
        PathsExactly(If1(e), q[1..], phase);
        PathsExactly(If0(e), q[1..], phase);
      }
    }
  }

  lemma FromDistinct(b: Branch, ps: seq<seq<Branch>>, i: nat, j: nat)
    requires i < |ps| && j < |ps| && ps[i] != ps[j]
    ensures From([b], ps)[i] != From([b], ps)[j]
  {
    assert ([b] + ps[i])[1..] == ps[i] && ([b] + ps[j])[1..] == ps[j];
  }

  /** And each of them once. */
  lemma {:induction false} PathsDistinct(e: Edge, phase: bool, i: nat, j: nat)
    requires i < j < |PathsTo(e, phase)|
    ensures PathsTo(e, phase)[i] != PathsTo(e, phase)[j]
    decreases e.node
  {
    if e.node.Node? {
      var v := e.node.index;
      var ps, qs := PathsTo(If1(e), phase), PathsTo(If0(e), phase);
      if j < |ps| {
        PathsDistinct(If1(e), phase, i, j);
        FromDistinct(Branch(v, true), ps, i, j);
      } else if i >= |ps| {
        PathsDistinct(If0(e), phase, i - |ps|, j - |ps|);
        FromDistinct(Branch(v, false), qs, i - |ps|, j - |ps|);
      } else {
        assert PathsTo(e, phase)[i][0] == Branch(v, true) && PathsTo(e, phase)[j][0] == Branch(v, false);
      }
    }
  }

  // ---------------------------------------------------------------- the sum

  /** The static probability of the branches. */
  ghost function PathWeight(q: seq<Branch>, f: seq<Info>): real
    requires InRange(q, |f|)
  {
    if q == [] then 1.0
    else
      var b := q[|q| - 1];
      var p := f[b.index].staticProb;
      PathWeight(q[..|q| - 1], f) * if b.taken then p else 1.0 - p
  }

  /** The probability that input `i` is 1 next: after a 1 on the path, after a 0 on it, or if the path leaves it
      open. */
  ghost function NextOne(q: seq<Branch>, i: nat, f: Info): real {
    if Branch(i, true) in q then 1.0 - f.prob1to0
    else if Branch(i, false) in q then f.prob0to1
    else f.staticProb
  }

  /** The probability that the walk ends at `phase` next, given the path now. */
  ghost function Chance(next: Edge, q: seq<Branch>, f: seq<Info>, phase: bool): real
    requires Within(next, |f|)
  {
    Exp(seq(|f|, i requires 0 <= i < |f| => NextOne(q, i, f[i])), Ends(next, |f|, phase))
  }

  ghost predicate InRange(q: seq<Branch>, n: nat) {
    forall b | b in q :: b.index < n
  }

  /** `x` with the path weight multiplied in twice. */
  ghost function Twice(w: real, x: real): real {
    w * w * x
  }

  /** The square of the weight of a path, times the chance of `phase` after it. */
  ghost function SquareTerm(next: Edge, f: seq<Info>, phase: bool): seq<Branch> -> real
    requires Within(next, |f|)
  {
    q => if InRange(q, |f|) then Twice(PathWeight(q, f), Chance(next, q, f, phase)) else 0.0
  }

  ghost function Sum(ps: seq<seq<Branch>>, term: seq<Branch> -> real): real {
    if ps == [] then 0.0 else Sum(ps[..|ps| - 1], term) + term(ps[|ps| - 1])
  }

  lemma {:induction false} SumJoined(ps: seq<seq<Branch>>, qs: seq<seq<Branch>>, term: seq<Branch> -> real)
    ensures Sum(ps + qs, term) == Sum(ps, term) + Sum(qs, term)
  {
    if qs == [] {
      assert ps + qs == ps;
    } else {
      var front := qs[..|qs| - 1];
      assert (ps + qs)[..|ps + qs| - 1] == ps + front;
      SumJoined(ps, front, term);
    }
  }

  // ---------------------------------------------------------------- it is what the recursion computes

  /** The cube that belongs to the branches taken so far. */
  ghost function PathCube(q: seq<Branch>, n: nat): (c: seq<Literal>)
    ensures |c| == n
  {
    seq(n, i requires 0 <= i < n => if Branch(i, true) in q then ONE else if Branch(i, false) in q then ZERO else TWO)
  }

  lemma PathCubeOfBranch(q: seq<Branch>, n: nat, i: nat, b: bool)
    requires i < n && forall x | x in q :: x.index != i
    ensures PathCube(q + [Branch(i, b)], n) == PathCube(q, n)[i := if b then ONE else ZERO]
  {
    forall j | 0 <= j < n
      ensures PathCube(q + [Branch(i, b)], n)[j] == PathCube(q, n)[i := if b then ONE else ZERO][j]
    {
      assert forall x: Branch :: x in q + [Branch(i, b)] <==> x in q || x == Branch(i, b);
    }
  }

  lemma ChanceOfCube(next: Edge, q: seq<Branch>, f: seq<Info>, phase: bool)
    requires Within(next, |f|) && ReadOnce(next)
    ensures Chance(next, q, f, phase) == CubeSwitchProb(next, PathCube(q, |f|), f, phase)
  {
    var ws := seq(|f|, i requires 0 <= i < |f| => NextOne(q, i, f[i]));
    assert NextWeights(PathCube(q, |f|), f) == ws;
    ReachIsExpectation(next, ws, phase);
  }

  lemma WeightOfThen(q: seq<Branch>, q1: seq<Branch>, f: seq<Info>, v: nat, w: real)
    requires InRange(q, |f|) && v < |f| && q1 == q + [Branch(v, true)] && w == PathWeight(q, f)
    ensures InRange(q1, |f|) && PathWeight(q1, f) == w * f[v].staticProb
  {
    assert q1[..|q|] == q && q1[|q|] == Branch(v, true);
  }

  lemma WeightOfElse(q: seq<Branch>, q0: seq<Branch>, f: seq<Info>, v: nat, w: real)
    requires InRange(q, |f|) && v < |f| && q0 == q + [Branch(v, false)] && w == PathWeight(q, f)
    ensures InRange(q0, |f|) && PathWeight(q0, f) == w * (1.0 - f[v].staticProb)
  {
    assert q0[..|q|] == q && q0[|q|] == Branch(v, false);
  }

  lemma FromBranch(q: seq<Branch>, b: Branch, ps: seq<seq<Branch>>)
    ensures From(q, From([b], ps)) == From(q + [b], ps)
  {
    forall i | 0 <= i < |ps| ensures From(q, From([b], ps))[i] == From(q + [b], ps)[i] {
      assert q + ([b] + ps[i]) == q + [b] + ps[i];
    }
  }

  lemma FromJoined(q: seq<Branch>, ps: seq<seq<Branch>>, qs: seq<seq<Branch>>)
    ensures From(q, ps + qs) == From(q, ps) + From(q, qs)
  {
  }

  lemma SquareStep(w: real, p: real, w1: real, w0: real, s: real, t: real, ws: real, wt: real, sum: real)
    requires w1 == w * p && w0 == w * (1.0 - p) && ws == Twice(w1, s) && wt == Twice(w0, t) && sum == SquareMix(p, s, t)
    ensures ws + wt == Twice(w, sum)
  {
    var q := 1.0 - p;
    assert (w * p) * (w * p) * s == w * w * (p * (p * s));
    assert (w * q) * (w * q) * t == w * w * (q * (q * t));
  }

  lemma SquareTermOfCube(next: Edge, q: seq<Branch>, f: seq<Info>, phase: bool)
    requires Within(next, |f|) && ReadOnce(next) && InRange(q, |f|)
    ensures SquareTerm(next, f, phase)(q)
            == Twice(PathWeight(q, f), CubeSwitchProb(next, PathCube(q, |f|), f, phase))
  {
    var term := SquareTerm(next, f, phase)(q);
    assert term == Twice(PathWeight(q, f), Chance(next, q, f, phase));
    ChanceOfCube(next, q, f, phase);
  }

  /** No variable of `e` has been tested on the way to it. */
  ghost predicate Untested(e: Edge, q: seq<Branch>) {
    forall b | b in q :: b.index !in Support(e)
  }

  /** The descent has come to `e` by the branches `q`. */
  ghost predicate Fits(e: Edge, q: seq<Branch>, n: nat) {
    Within(e, n) && ReadOnce(e) && InRange(q, n) && Untested(e, q)
  }

  lemma ChildrenFit(e: Edge, q: seq<Branch>, n: nat)
    requires Fits(e, q, n) && e.node.Node?
    ensures Fits(If1(e), q + [Branch(e.node.index, true)], n) && Fits(If0(e), q + [Branch(e.node.index, false)], n)
  {
  }

  lemma NodeSum(next: Edge, e: Edge, c: seq<Literal>, c1: seq<Literal>, c0: seq<Literal>, f: seq<Info>, phase: bool,
                w: real, w1: real, w0: real)
    requires |c| == |f| && Within(next, |f|) && Within(e, |f|) && e.node.Node?
    requires c1 == c[e.node.index := ONE] && c0 == c[e.node.index := ZERO]
    requires w1 == w * f[e.node.index].staticProb && w0 == w * (1.0 - f[e.node.index].staticProb)
    ensures Twice(w1, SwitchSum(next, If1(e), c1, f, phase)) + Twice(w0, SwitchSum(next, If0(e), c0, f, phase))
            == Twice(w, SwitchSum(next, e, c, f, phase))
  {
    var s1, s0 := SwitchSum(next, If1(e), c1, f, phase), SwitchSum(next, If0(e), c0, f, phase);
    SwitchSumNode(next, e, c, c1, c0, f, phase);
    SquareStep(w, f[e.node.index].staticProb, w1, w0, s1, s0, Twice(w1, s1), Twice(w0, s0),
               SwitchSum(next, e, c, f, phase));
  }

  lemma SwitchSumNode(next: Edge, e: Edge, c: seq<Literal>, c1: seq<Literal>, c0: seq<Literal>, f: seq<Info>,
                      phase: bool)
    requires |c| == |f| && Within(next, |f|) && Within(e, |f|) && e.node.Node?
    requires c1 == c[e.node.index := ONE] && c0 == c[e.node.index := ZERO]
    ensures SwitchSum(next, e, c, f, phase)
            == SquareMix(f[e.node.index].staticProb, SwitchSum(next, If1(e), c1, f, phase),
                         SwitchSum(next, If0(e), c0, f, phase))
  {
  }

  lemma LeafSum(next: Edge, e: Edge, q: seq<Branch>, f: seq<Info>, phase: bool)
    requires Within(next, |f|) && ReadOnce(next) && InRange(q, |f|) && e.node.One?
    ensures Twice(PathWeight(q, f), SwitchSum(next, e, PathCube(q, |f|), f, phase))
            == Sum(From(q, PathsTo(e, !phase)), SquareTerm(next, f, phase))
  {
    SquareTermOfCube(next, q, f, phase);
    var ps, term := From(q, PathsTo(e, !phase)), SquareTerm(next, f, phase);
    if phase == e.complement {
      assert q + [] == q;
      assert ps == [q];
      assert ps[..0] == [] && Sum(ps[..0], term) == 0.0;
    }
  }

  lemma BothBranches(e: Edge, q: seq<Branch>, phase: bool, term: seq<Branch> -> real)
    requires e.node.Node?
    ensures var v := e.node.index;
            Sum(From(q, PathsTo(e, !phase)), term)
            == Sum(From(q + [Branch(v, true)], PathsTo(If1(e), !phase)), term)
             + Sum(From(q + [Branch(v, false)], PathsTo(If0(e), !phase)), term)
  {
    var b1, b0 := Branch(e.node.index, true), Branch(e.node.index, false);
    var ps, qs := PathsTo(If1(e), !phase), PathsTo(If0(e), !phase);
    FromJoined(q, From([b1], ps), From([b0], qs));
    FromBranch(q, b1, ps);
    FromBranch(q, b0, qs);
    SumJoined(From(q + [b1], ps), From(q + [b0], qs), term);
  }

  /** At a vertex `value` is the sum of its values at the children. */
  ghost predicate Splits(value: (Edge, seq<Branch>) -> real, e: Edge, q: seq<Branch>) {
    e.node.Node? ==> value(e, q) == value(If1(e), q + [Branch(e.node.index, true)])
                                    + value(If0(e), q + [Branch(e.node.index, false)])
  }

  ghost predicate StartsAtLeaf(value: (Edge, seq<Branch>) -> real, term: seq<Branch> -> real, e: Edge, q: seq<Branch>,
                               phase: bool)
  {
    e.node.One? ==> value(e, q) == Sum(From(q, PathsTo(e, phase)), term)
  }

  /** What splits at every vertex is the sum over the paths below. */
  lemma {:induction false} SumOfSplits(value: (Edge, seq<Branch>) -> real, term: seq<Branch> -> real, e: Edge,
                                       q: seq<Branch>, n: nat, phase: bool)
    requires Fits(e, q, n)
    requires forall d: Edge, r: seq<Branch> | Fits(d, r, n) :: Splits(value, d, r)
    requires forall d: Edge, r: seq<Branch> | Fits(d, r, n) :: StartsAtLeaf(value, term, d, r, !phase)
    ensures value(e, q) == Sum(From(q, PathsTo(e, !phase)), term)
    decreases e.node
  {
    assert Splits(value, e, q) && StartsAtLeaf(value, term, e, q, !phase);
    if e.node.Node? {
      ChildrenFit(e, q, n);
      SumOfSplits(value, term, If1(e), q + [Branch(e.node.index, true)], n, phase);
      SumOfSplits(value, term, If0(e), q + [Branch(e.node.index, false)], n, phase);
      BothBranches(e, q, phase, term);
    }
  }

  /** The square of the weight so far, times what the recursion returns from here. */
  ghost function Below(next: Edge, f: seq<Info>, phase: bool): (Edge, seq<Branch>) -> real
    requires Within(next, |f|)
  {
    (e: Edge, q: seq<Branch>) =>
      if Fits(e, q, |f|) then Twice(PathWeight(q, f), SwitchSum(next, e, PathCube(q, |f|), f, phase)) else 0.0
  }

  lemma BelowIs(next: Edge, e: Edge, q: seq<Branch>, f: seq<Info>, phase: bool, w: real, c: seq<Literal>)
    requires Within(next, |f|) && Fits(e, q, |f|) && w == PathWeight(q, f) && c == PathCube(q, |f|)
    ensures Below(next, f, phase)(e, q) == Twice(w, SwitchSum(next, e, c, f, phase))
  {
  }

  /** The weight and the cube change as the code changes them. */
  lemma BranchFacts(e: Edge, q: seq<Branch>, f: seq<Info>)
    returns (w: real, w1: real, w0: real, c: seq<Literal>, c1: seq<Literal>, c0: seq<Literal>)
    requires Fits(e, q, |f|) && e.node.Node?
    ensures var v := e.node.index;
            var q1, q0 := q + [Branch(v, true)], q + [Branch(v, false)];
            && InRange(q1, |f|) && InRange(q0, |f|)
            && w == PathWeight(q, f) && w1 == PathWeight(q1, f) && w0 == PathWeight(q0, f)
            && c == PathCube(q, |f|) && c1 == PathCube(q1, |f|) && c0 == PathCube(q0, |f|)
    ensures var v := e.node.index;
            && w1 == w * f[v].staticProb && w0 == w * (1.0 - f[v].staticProb)
            && c1 == c[v := ONE] && c0 == c[v := ZERO]
  {
    var v := e.node.index;
    var q1, q0 := q + [Branch(v, true)], q + [Branch(v, false)];
    ChildrenFit(e, q, |f|);
    w, w1, w0 := PathWeight(q, f), PathWeight(q1, f), PathWeight(q0, f);
    c, c1, c0 := PathCube(q, |f|), PathCube(q1, |f|), PathCube(q0, |f|);
    WeightOfThen(q, q1, f, v, w);
    WeightOfElse(q, q0, f, v, w);
    PathCubeOfBranch(q, |f|, v, true);
    PathCubeOfBranch(q, |f|, v, false);
  }

  lemma BelowSplits(next: Edge, e: Edge, q: seq<Branch>, f: seq<Info>, phase: bool)
    requires Within(next, |f|) && Fits(e, q, |f|)
    ensures Splits(Below(next, f, phase), e, q)
  {
    if e.node.Node? {
      ChildrenFit(e, q, |f|);
      var w, w1, w0, c, c1, c0 := BranchFacts(e, q, f);
      NodeSum(next, e, c, c1, c0, f, phase, w, w1, w0);
      BelowIs(next, e, q, f, phase, w, c);
      BelowIs(next, If1(e), q + [Branch(e.node.index, true)], f, phase, w1, c1);
      BelowIs(next, If0(e), q + [Branch(e.node.index, false)], f, phase, w0, c0);
    }
  }

  /** From any point of the descent: the square of the weight so far, times the recursive sum, is the sum over the
      paths that go on from there. */
  lemma {:induction false} SwitchSumFrom(next: Edge, e: Edge, q: seq<Branch>, f: seq<Info>, phase: bool)
    requires Within(next, |f|) && Within(e, |f|) && ReadOnce(next) && ReadOnce(e)
    requires InRange(q, |f|) && Untested(e, q)
    ensures Twice(PathWeight(q, f), SwitchSum(next, e, PathCube(q, |f|), f, phase))
            == Sum(From(q, PathsTo(e, !phase)), SquareTerm(next, f, phase))
  {
    var value, term := Below(next, f, phase), SquareTerm(next, f, phase);
    forall d: Edge, r: seq<Branch> | Fits(d, r, |f|) ensures Splits(value, d, r) {
      BelowSplits(next, d, r, f, phase);
    }
    forall d: Edge, r: seq<Branch> | Fits(d, r, |f|) ensures StartsAtLeaf(value, term, d, r, !phase) {
      if d.node.One? {
        LeafSum(next, d, r, f, phase);
      }
    }
    SumOfSplits(value, term, e, q, |f|, phase);
  }

  /** What the enumeration returns: the sum, over all paths of the diagram that end away from `phase`, of the square
      of the weight of the path times the chance of `phase` after it. */
  lemma SwitchSumIsPathSum(e: Edge, f: seq<Info>, phase: bool)
    requires Within(e, |f|) && ReadOnce(e)
    ensures SwitchSum(e, e, DontCare(|f|), f, phase) == Sum(PathsTo(e, !phase), SquareTerm(e, f, phase))
  {
    SwitchSumFrom(e, e, [], f, phase);
    assert PathCube([], |f|) == DontCare(|f|);
    var ps := PathsTo(e, !phase);
    assert From([], ps) == ps by {
      forall i | 0 <= i < |ps| ensures From([], ps)[i] == ps[i] {
        assert [] + ps[i] == ps[i];
      }
    }
  }
}
