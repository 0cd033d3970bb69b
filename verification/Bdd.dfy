/** Decision diagrams as ACE walks them, and the probabilities it reads off them (ace2/bdd.c).

    CUDD's unique table keeps one copy of each vertex, so two edges are the same pointer exactly
    when they are the same value; a diagram is therefore an inductive value and sharing is equality. */
module Bdd {
  import opened Expectation

  datatype Vertex = One | Node(index: nat, t: Edge, e: Edge)
  datatype Edge = Edge(node: Vertex, complement: bool)

  const ONE_EDGE := Edge(One, false)
  const ZERO_EDGE := Edge(One, true)

  /** The successor the code follows when the variable is 1: on a complemented edge it swaps the two children. */
  function If1(e: Edge): Edge
    requires e.node.Node?
  {
    if e.complement then e.node.e else e.node.t
  }

  function If0(e: Edge): Edge
    requires e.node.Node?
  {
    if e.complement then e.node.t else e.node.e
  }

  ghost function Support(e: Edge): set<nat>
    decreases e.node
  {
    if e.node.One? then {} else {e.node.index} + Support(e.node.t) + Support(e.node.e)
  }

  /** Every variable of the diagram is one of the first `n`. */
  ghost predicate Within(e: Edge, n: nat)
    decreases e.node
  {
    e.node.Node? ==> e.node.index < n && Within(e.node.t, n) && Within(e.node.e, n)
  }

  /** No variable is tested twice on a path. */
  ghost predicate ReadOnce(e: Edge)
    decreases e.node
  {
    e.node.Node? ==>
      && e.node.index !in Support(e.node.t) + Support(e.node.e)
      && ReadOnce(e.node.t) && ReadOnce(e.node.e)
  }

  /** The leaf at which the code's branch rule ends under assignment `a`. */
  ghost function Walk(e: Edge, a: seq<bool>): bool
    requires Within(e, |a|)
    decreases e.node
  {
    if e.node.One? then !e.complement
    else if a[e.node.index] then Walk(If1(e), a) else Walk(If0(e), a)
  }

  // ---------------------------------------------------------------- the walk and the Boolean function

  /** `Cudd_Eval`: the Boolean function of an edge; a complement bit negates. */
  ghost function Eval(e: Edge, a: seq<bool>): bool
    requires Within(e, |a|)
    decreases e.node
  {
    var regular := e.node.One? || (if a[e.node.index] then Eval(e.node.t, a) else Eval(e.node.e, a));
    regular != e.complement
  }

  lemma {:induction false} EvalIgnores(e: Edge, a: seq<bool>, v: nat, b: bool)
    requires Within(e, |a|) && v < |a| && v !in Support(e)
    ensures Eval(e, a[v := b]) == Eval(e, a)
    decreases e.node
  {
    if e.node.Node? {
      EvalIgnores(e.node.t, a, v, b);
      EvalIgnores(e.node.e, a, v, b);
    }
  }

  lemma {:induction false} WalkIgnores(e: Edge, a: seq<bool>, v: nat, b: bool)
    requires Within(e, |a|) && v < |a| && v !in Support(e)
    ensures Walk(e, a[v := b]) == Walk(e, a)
    decreases e.node
  {
    if e.node.Node? {
      WalkIgnores(e.node.t, a, v, b);
      WalkIgnores(e.node.e, a, v, b);
    }
  }

  /** The code's walk gives the Boolean function of `e`. */
  ghost predicate WalkIsEval(e: Edge, n: nat)
    requires Within(e, n)
  {
    forall a: seq<bool> | |a| == n :: Walk(e, a) == Eval(e, a)
  }

  /** The walk of each child is the negation of the function of the other. */
  ghost predicate CrossNegated(e: Edge, n: nat)
    requires Within(e, n) && e.node.Node?
  {
    forall a: seq<bool> | |a| == n :: Walk(e.node.e, a) == !Eval(e.node.t, a) && Walk(e.node.t, a) == !Eval(e.node.e, a)
  }

  /** Down to the first complemented edges to vertices, and at each of them the children are cross-negated. */
  ghost predicate ReadsRight(e: Edge, n: nat)
    requires Within(e, n)
    decreases e.node
  {
    e.node.Node? ==> if e.complement then CrossNegated(e, n) else ReadsRight(e.node.t, n) && ReadsRight(e.node.e, n)
  }

  /** The two functions at stake, with the variable of the vertex fixed. */
  lemma FixedWalk(e: Edge, a: seq<bool>, b: bool)
    requires Within(e, |a|) && ReadOnce(e) && e.node.Node?
    ensures var c := a[e.node.index := b];
            && Walk(e, c) == Walk(if b then If1(e) else If0(e), a)
            && Eval(e, c) == (Eval(if b then e.node.t else e.node.e, a) != e.complement)
  {
    WalkIgnores(e.node.t, a, e.node.index, b);
    WalkIgnores(e.node.e, a, e.node.index, b);
    EvalIgnores(e.node.t, a, e.node.index, b);
    EvalIgnores(e.node.e, a, e.node.index, b);
  }

  /** The walk from `e` gives the Boolean function of `e` exactly if every first complemented edge to a vertex has
      cross-negated children. */
  lemma {:induction false} WalkIsEvalExactly(e: Edge, n: nat)
    requires Within(e, n) && ReadOnce(e)
    ensures WalkIsEval(e, n) <==> ReadsRight(e, n)
    decreases e.node
  {
    if e.node.Node? {
      WalkIsEvalExactly(e.node.t, n);
      WalkIsEvalExactly(e.node.e, n);
      if WalkIsEval(e, n) {
        forall a: seq<bool> | |a| == n
          ensures Walk(If1(e), a) == (Eval(e.node.t, a) != e.complement)
          ensures Walk(If0(e), a) == (Eval(e.node.e, a) != e.complement)
        {
          FixedWalk(e, a, true);
          FixedWalk(e, a, false);
          assert Walk(e, a[e.node.index := true]) == Eval(e, a[e.node.index := true]);
          assert Walk(e, a[e.node.index := false]) == Eval(e, a[e.node.index := false]);
        }
      }
    }
  }

  // ---------------------------------------------------------------- deciding it without assignments

  /** The manager's variable order: `level` rises along every edge. */
  ghost predicate Levelled(e: Edge, level: nat -> nat)
    decreases e.node
  {
    e.node.Node? ==>
      && (forall v | v in Support(e.node.t) + Support(e.node.e) :: level(e.node.index) < level(v))
      && Levelled(e.node.t, level) && Levelled(e.node.e, level)
  }

  /** The upper of the two top variables. */
  function Top(x: Edge, y: Edge, level: nat -> nat): nat
    requires x.node.Node? || y.node.Node?
  {
    if x.node.One? || (y.node.Node? && level(y.node.index) < level(x.node.index)) then y.node.index else x.node.index
  }

  /** Where the walk goes when `v` is `b`. */
  function WalkSide(x: Edge, v: nat, b: bool): (r: Edge)
    ensures r == x || r.node < x.node
    ensures x.node.Node? && x.node.index == v ==> r.node < x.node
  {
    if x.node.One? || x.node.index != v then x else if b then If1(x) else If0(x)
  }

  /** The cofactor of the function when `v` is `b`: the complement bit goes down with it. */
  function EvalSide(y: Edge, v: nat, b: bool): (r: Edge)
    ensures r == y || r.node < y.node
    ensures y.node.Node? && y.node.index == v ==> r.node < y.node
  {
    if y.node.One? || y.node.index != v then y
    else
      var child := if b then y.node.t else y.node.e;
      Edge(child.node, child.complement != y.complement)
  }

  /** Goes down two diagrams at once, walking `x` and evaluating `y`; it compares the leaves it ends at. */
  predicate Agree(x: Edge, y: Edge, level: nat -> nat)
    decreases x.node, y.node
  {
    if x.node.One? && y.node.One? then x.complement == y.complement
    else
      var v := Top(x, y, level);
      && Agree(WalkSide(x, v, true), EvalSide(y, v, true), level)
      && Agree(WalkSide(x, v, false), EvalSide(y, v, false), level)
  }

  /** Variable `v` is at the top of the diagram or nowhere in it. */
  ghost predicate Tops(v: nat, e: Edge)
  {
    v !in Support(e) || (e.node.Node? && e.node.index == v)
  }

  lemma {:induction false} SidesKeep(x: Edge, y: Edge, level: nat -> nat, v: nat, b: bool, n: nat)
    requires Within(x, n) && Within(y, n) && Levelled(x, level) && Levelled(y, level)
    ensures Within(WalkSide(x, v, b), n) && Levelled(WalkSide(x, v, b), level)
    ensures Within(EvalSide(y, v, b), n) && Levelled(EvalSide(y, v, b), level)
  {
  }

  lemma {:induction false} RootIsNotBelow(e: Edge, level: nat -> nat)
    requires Levelled(e, level) && e.node.Node?
    ensures e.node.index !in Support(e.node.t) && e.node.index !in Support(e.node.e)
  {
    var v := e.node.index;
    assert v in Support(e.node.t) + Support(e.node.e) ==> level(v) < level(v);
  }

  lemma {:induction false} WalkSideFixes(x: Edge, level: nat -> nat, v: nat, b: bool, a: seq<bool>)
    requires Within(x, |a|) && Levelled(x, level) && v < |a| && Tops(v, x) && Within(WalkSide(x, v, b), |a|)
    ensures Walk(WalkSide(x, v, b), a) == Walk(x, a[v := b])
  {
    if x.node.Node? && x.node.index == v {
      RootIsNotBelow(x, level);
    }
    WalkIgnores(WalkSide(x, v, b), a, v, b);
  }

  lemma {:induction false} EvalSideFixes(y: Edge, level: nat -> nat, v: nat, b: bool, a: seq<bool>)
    requires Within(y, |a|) && Levelled(y, level) && v < |a| && Tops(v, y) && Within(EvalSide(y, v, b), |a|)
    ensures Eval(EvalSide(y, v, b), a) == Eval(y, a[v := b])
  {
    if y.node.Node? && y.node.index == v {
      RootIsNotBelow(y, level);
    }
    EvalIgnores(EvalSide(y, v, b), a, v, b);
  }

  lemma {:induction false} TopIsTop(x: Edge, y: Edge, level: nat -> nat, n: nat)
    requires Levelled(x, level) && Levelled(y, level) && (x.node.Node? || y.node.Node?) && Within(x, n) && Within(y, n)
    ensures Top(x, y, level) < n && Tops(Top(x, y, level), x) && Tops(Top(x, y, level), y)
  {
  }

  /** Walking `x` gives the function of `y`. */
  ghost predicate ReadsAs(x: Edge, y: Edge, n: nat)
    requires Within(x, n) && Within(y, n)
  {
    forall a: seq<bool> | |a| == n :: Walk(x, a) == Eval(y, a)
  }

  /** Fixing `v` on both sides keeps the reading. */
  lemma {:induction false} ReadsAsSide(x: Edge, y: Edge, level: nat -> nat, n: nat, v: nat, b: bool)
    requires Within(x, n) && Within(y, n) && Levelled(x, level) && Levelled(y, level) && ReadsAs(x, y, n)
    requires v < n && Tops(v, x) && Tops(v, y) && Within(WalkSide(x, v, b), n) && Within(EvalSide(y, v, b), n)
    ensures ReadsAs(WalkSide(x, v, b), EvalSide(y, v, b), n)
  {
    forall a: seq<bool> | |a| == n ensures Walk(WalkSide(x, v, b), a) == Eval(EvalSide(y, v, b), a) {
      WalkSideFixes(x, level, v, b, a);
      EvalSideFixes(y, level, v, b, a);
      assert |a[v := b]| == n;
    }
  }

  /** And every assignment fixes `v` one way or the other. */
  lemma {:induction false} ReadsAsAt(x: Edge, y: Edge, level: nat -> nat, v: nat, a: seq<bool>)
    requires Within(x, |a|) && Within(y, |a|) && Levelled(x, level) && Levelled(y, level)
    requires v < |a| && Tops(v, x) && Tops(v, y)
    requires Within(WalkSide(x, v, a[v]), |a|) && Within(EvalSide(y, v, a[v]), |a|)
    requires ReadsAs(WalkSide(x, v, a[v]), EvalSide(y, v, a[v]), |a|)
    ensures Walk(x, a) == Eval(y, a)
  {
    assert a[v := a[v]] == a;
    WalkSideFixes(x, level, v, a[v], a);
    EvalSideFixes(y, level, v, a[v], a);
  }

  /** On ordered diagrams the descent decides whether the walk from `x` gives the Boolean function of `y`. */
  lemma {:induction false} AgreeExactly(x: Edge, y: Edge, level: nat -> nat, n: nat)
    requires Within(x, n) && Within(y, n) && Levelled(x, level) && Levelled(y, level)
    ensures Agree(x, y, level) <==> ReadsAs(x, y, n)
    decreases x.node, y.node
  {
    if x.node.One? && y.node.One? {
      var some := seq(n, _ => false);
      assert Walk(x, some) == !x.complement && Eval(y, some) == !y.complement;
    } else {
      var v := Top(x, y, level);
      TopIsTop(x, y, level, n);
      forall b: bool
        ensures Within(WalkSide(x, v, b), n) && Within(EvalSide(y, v, b), n)
        ensures Agree(WalkSide(x, v, b), EvalSide(y, v, b), level)
                == ReadsAs(WalkSide(x, v, b), EvalSide(y, v, b), n)
        ensures ReadsAs(x, y, n) ==> ReadsAs(WalkSide(x, v, b), EvalSide(y, v, b), n)
      {
        SidesKeep(x, y, level, v, b, n);
        AgreeExactly(WalkSide(x, v, b), EvalSide(y, v, b), level, n);
        if ReadsAs(x, y, n) {
          ReadsAsSide(x, y, level, n, v, b);
        }
      }
      if Agree(x, y, level) {
        forall a: seq<bool> | |a| == n ensures Walk(x, a) == Eval(y, a) {
          ReadsAsAt(x, y, level, v, a);
        }
      }
    }
  }

  /** The code's walk gives the Boolean function of an ordered diagram exactly if the descent from two copies of its
      root succeeds. */
  lemma WalkIsEvalDecided(e: Edge, level: nat -> nat, n: nat)
    requires Within(e, n) && Levelled(e, level)
    ensures WalkIsEval(e, n) <==> Agree(e, e, level)
  {
    AgreeExactly(e, e, level, n);
  }

  /** Wherever the walk can meet a vertex over a complemented edge, the two children are each other's negation. */
  ghost predicate SwapIsNegation(e: Edge, n: nat)
    requires Within(e, n)
    decreases e.node
  {
    e.node.Node? ==>
      && (e.complement ==> forall a: seq<bool> | |a| == n :: Eval(e.node.e, a) == !Eval(e.node.t, a))
      && SwapIsNegation(If1(e), n) && SwapIsNegation(If0(e), n)
  }

  /** That is enough, but more than what is needed. */
  lemma {:induction false} SwapIsNegationSuffices(e: Edge, n: nat)
    requires Within(e, n) && SwapIsNegation(e, n)
    ensures WalkIsEval(e, n)
    decreases e.node
  {
    if e.node.Node? {
      SwapIsNegationSuffices(If1(e), n);
      SwapIsNegationSuffices(If0(e), n);
      forall a: seq<bool> | |a| == n ensures Walk(e, a) == Eval(e, a) {
        assert Walk(If1(e), a) == Eval(If1(e), a) && Walk(If0(e), a) == Eval(If0(e), a);
      }
    }
  }

  /** No complemented edge leads to a vertex; only the constant may be complemented. */
  ghost predicate Uncomplemented(e: Edge)
    decreases e.node
  {
    e.node.Node? ==> !e.complement && Uncomplemented(e.node.t) && Uncomplemented(e.node.e)
  }

  lemma {:induction false} UncomplementedWalkIsEval(e: Edge, n: nat)
    requires Within(e, n) && Uncomplemented(e)
    ensures WalkIsEval(e, n) && SwapIsNegation(e, n)
    decreases e.node
  {
    if e.node.Node? {
      UncomplementedWalkIsEval(e.node.t, n);
      UncomplementedWalkIsEval(e.node.e, n);
      SwapIsNegationSuffices(e, n);
    }
  }

  const CONJUNCTION := Node(0, Edge(Node(1, ONE_EDGE, ZERO_EDGE), false), ZERO_EDGE)

  /** NAND(x, y) is the complemented edge to AND(x, y): at x = y = 0 the walk ends at the wrong leaf. */
  lemma NandIsMisread()
    ensures Within(Edge(CONJUNCTION, true), 2) && ReadOnce(Edge(CONJUNCTION, true))
    ensures Eval(Edge(CONJUNCTION, true), [false, false]) && !Walk(Edge(CONJUNCTION, true), [false, false])
  {
    var y := Edge(Node(1, ONE_EDGE, ZERO_EDGE), false);
    assert Support(ONE_EDGE) == {} && Support(ZERO_EDGE) == {};
    assert Support(y) == {1};
    assert Support(Edge(CONJUNCTION, true)) == {0, 1};
    assert Walk(y, [false, false]) == Walk(ZERO_EDGE, [false, false]);
    assert If0(Edge(CONJUNCTION, true)) == y;
  }

  const LAST := Node(3, ONE_EDGE, ZERO_EDGE)
  const EITHER := Node(2, ONE_EDGE, Edge(LAST, true))
  const BOTH := Node(2, Edge(LAST, false), ZERO_EDGE)
  const LEFT := Node(1, Edge(EITHER, false), Edge(EITHER, true))
  const RIGHT := Node(1, Edge(EITHER, false), Edge(BOTH, true))
  const CANCELLING := Edge(Node(0, Edge(LEFT, false), Edge(RIGHT, true)), true)

  lemma WalksBelow(a: seq<bool>)
    requires |a| == 4
    ensures var x, y := a[2], a[3];
            && Walk(Edge(EITHER, false), a) == (x || !y) == Eval(Edge(EITHER, false), a)
            && Walk(Edge(EITHER, true), a) == (!x || !y) && Eval(Edge(EITHER, true), a) == (!x && y)
            && Walk(Edge(BOTH, false), a) == (x && y) == Eval(Edge(BOTH, false), a)
            && Walk(Edge(BOTH, true), a) == (!x && y) && Eval(Edge(BOTH, true), a) == (!x || !y)
  {
    assert Walk(Edge(LAST, false), a) == Eval(Edge(LAST, false), a) == a[3];
    assert Walk(Edge(LAST, true), a) == Eval(Edge(LAST, true), a) == !a[3];
  }

  lemma CancellingReads(a: seq<bool>)
    requires |a| == 4
    ensures Walk(CANCELLING, a) == Eval(CANCELLING, a)
  {
    WalksBelow(a);
    assert Walk(Edge(LEFT, false), a) == if a[1] then Walk(Edge(EITHER, false), a) else Walk(Edge(EITHER, true), a);
    assert Walk(Edge(RIGHT, true), a) == if a[1] then Walk(Edge(BOTH, true), a) else Walk(Edge(EITHER, false), a);
    assert Eval(Edge(LEFT, false), a) == if a[1] then Eval(Edge(EITHER, false), a) else Eval(Edge(EITHER, true), a);
    assert Eval(Edge(RIGHT, true), a) == !if a[1] then Eval(Edge(EITHER, false), a) else Eval(Edge(BOTH, true), a);
  }

  lemma CancellingIsNoNegation(a: seq<bool>)
    requires a == [false, false, false, false]
    ensures Eval(CANCELLING.node.e, a) != !Eval(CANCELLING.node.t, a)
  {
    WalksBelow(a);
    assert Eval(Edge(LEFT, false), a) == Eval(Edge(EITHER, true), a);
    assert Eval(Edge(RIGHT, true), a) == !Eval(Edge(BOTH, true), a);
  }

  lemma SupportOfCancelling()
    ensures Within(CANCELLING, 4) && ReadOnce(CANCELLING)
  {
    assert Support(ONE_EDGE) == {} && Support(ZERO_EDGE) == {};
    assert Support(Edge(LAST, true)) == {3} && Support(Edge(LAST, false)) == {3};
    assert Support(Edge(EITHER, false)) == {2, 3} && Support(Edge(EITHER, true)) == {2, 3};
    assert Support(Edge(BOTH, true)) == {2, 3};
    assert Support(Edge(LEFT, false)) == {1, 2, 3} && Support(Edge(RIGHT, true)) == {1, 2, 3};
    assert ReadOnce(Edge(LAST, true)) && ReadOnce(Edge(LAST, false));
    assert ReadOnce(Edge(EITHER, false)) && ReadOnce(Edge(EITHER, true)) && ReadOnce(Edge(BOTH, true));
    assert ReadOnce(Edge(LEFT, false)) && ReadOnce(Edge(RIGHT, true));
    assert Within(Edge(EITHER, false), 4) && Within(Edge(EITHER, true), 4) && Within(Edge(BOTH, true), 4);
  }

  /** Misreadings can cancel: here the walk from the root is right although the children of a vertex that it meets
      over a complemented edge are not each other's negation. */
  lemma MisreadingsCancel()
    ensures Within(CANCELLING, 4) && ReadOnce(CANCELLING)
    ensures WalkIsEval(CANCELLING, 4) && !SwapIsNegation(CANCELLING, 4)
  {
    SupportOfCancelling();
    forall a: seq<bool> | |a| == 4 ensures Walk(CANCELLING, a) == Eval(CANCELLING, a) {
      CancellingReads(a);
    }
    CancellingIsNoNegation([false, false, false, false]);
  }

  // ---------------------------------------------------------------- probability of reaching a leaf

  /** The unmemoised recursion: the probability of ending at leaf `phase` when bit `i` is 1 with probability `ws[i]`. */
  ghost function Reach(e: Edge, ws: seq<real>, phase: bool): real
    requires Within(e, |ws|)
    decreases e.node
  {
    if e.node.One? then (if phase == !e.complement then 1.0 else 0.0)
    else Mix(ws[e.node.index], Reach(If1(e), ws, phase), Reach(If0(e), ws, phase))
  }

  lemma MixInUnit(x: real, a: real, b: real)
    requires 0.0 <= x <= 1.0 && 0.0 <= a <= 1.0 && 0.0 <= b <= 1.0
    ensures 0.0 <= Mix(x, a, b) <= 1.0
  {
    assert 0.0 <= x * a <= x;
    assert 0.0 <= (1.0 - x) * b <= 1.0 - x;
  }

  lemma {:induction false} ReachIsProbability(e: Edge, ws: seq<real>, phase: bool)
    requires Within(e, |ws|) && Probabilities(ws)
    ensures 0.0 <= Reach(e, ws, phase) <= 1.0
    decreases e.node
  {
    if e.node.Node? {
      ReachIsProbability(If1(e), ws, phase);
      ReachIsProbability(If0(e), ws, phase);
      MixInUnit(ws[e.node.index], Reach(If1(e), ws, phase), Reach(If0(e), ws, phase));
    }
  }

  lemma {:induction false} PhasesSumToOne(e: Edge, ws: seq<real>)
    requires Within(e, |ws|)
    ensures Reach(e, ws, false) + Reach(e, ws, true) == 1.0
    decreases e.node
  {
    if e.node.Node? {
      PhasesSumToOne(If1(e), ws);
      PhasesSumToOne(If0(e), ws);
      ComplementaryMix(ws[e.node.index], Reach(If1(e), ws, false), Reach(If0(e), ws, false));
    }
  }

  lemma ComplementaryMix(x: real, a: real, b: real)
    ensures Mix(x, a, b) + Mix(x, 1.0 - a, 1.0 - b) == 1.0
  {
  }

  lemma {:induction false} ReachIgnores(e: Edge, ws: seq<real>, v: nat, x: real, phase: bool)
    requires Within(e, |ws|) && v < |ws| && v !in Support(e)
    ensures Reach(e, ws[v := x], phase) == Reach(e, ws, phase)
    decreases e.node
  {
    if e.node.Node? {
      ReachIgnores(e.node.t, ws, v, x, phase);
      ReachIgnores(e.node.e, ws, v, x, phase);
    }
  }

  /** 1 on the assignments whose walk ends at leaf `phase`, else 0. */
  ghost function Ends(e: Edge, n: nat, phase: bool): seq<bool> -> real
    requires Within(e, n)
  {
    a => if |a| == n && Walk(e, a) == phase then 1.0 else 0.0
  }

  /** The recursion computes the total weight of the assignments whose walk ends at `phase`. */
  lemma {:induction false} ReachIsExpectation(e: Edge, ws: seq<real>, phase: bool)
    requires Within(e, |ws|) && ReadOnce(e)
    ensures Reach(e, ws, phase) == Exp(ws, Ends(e, |ws|, phase))
    decreases e.node
  {
    var n := |ws|;
    var g := Ends(e, n, phase);
    if e.node.One? {
      var c := Reach(e, ws, phase);
      ExpOfConstant(ws, c);
      ExpCongruence(ws, g, _ => c);
    } else {
      var v := e.node.index;
      assert Exp(ws[v := 1.0], g) == Reach(If1(e), ws, phase) by {
        ReachIsExpectation(If1(e), ws[v := 1.0], phase);
        ReachIgnores(If1(e), ws, v, 1.0, phase);
        ExpCongruence(ws[v := 1.0], g, Ends(If1(e), n, phase));
      }
      assert Exp(ws[v := 0.0], g) == Reach(If0(e), ws, phase) by {
        ReachIsExpectation(If0(e), ws[v := 0.0], phase);
        ReachIgnores(If0(e), ws, v, 0.0, phase);
        ExpCongruence(ws[v := 0.0], g, Ends(If0(e), n, phase));
      }
      SplitExp(ws, g, v);
    }
  }
}
