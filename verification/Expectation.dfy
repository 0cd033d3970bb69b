/** Expected values over independent bits: bit `i` is true with probability `ws[i]`. */
module Expectation {

  ghost function Mix(x: real, a: real, b: real): real {
    x * a + (1.0 - x) * b
  }

  /** What `g` becomes once its leading bits are known to be `pre`. */
  ghost function Given(pre: seq<bool>, g: seq<bool> -> real): seq<bool> -> real {
    a => g(pre + a)
  }

  ghost function Exp(ws: seq<real>, g: seq<bool> -> real): real {
    if ws == [] then g([])
    else Mix(ws[0], Exp(ws[1..], Given([true], g)), Exp(ws[1..], Given([false], g)))
  }

  // ---------------------------------------------------------------- Exp is the explicit weighted sum

  ghost function Weight(ws: seq<real>, a: seq<bool>): real
    requires |a| <= |ws|
  {
    if a == [] then 1.0
    else var k := |a| - 1; Weight(ws, a[..k]) * (if a[k] then ws[k] else 1.0 - ws[k])
  }

  /** The sum, over every assignment that extends `pre`, of the product of its bit weights times `g`. */
  ghost function SumOverAssignments(ws: seq<real>, pre: seq<bool>, g: seq<bool> -> real): real
    requires |pre| <= |ws|
    decreases |ws| - |pre|
  {
    if |pre| == |ws| then Weight(ws, pre) * g(pre)
    else SumOverAssignments(ws, pre + [true], g) + SumOverAssignments(ws, pre + [false], g)
  }

  lemma {:induction false} SumIsScaledExp(ws: seq<real>, pre: seq<bool>, g: seq<bool> -> real)
    requires |pre| <= |ws|
    ensures SumOverAssignments(ws, pre, g) == Weight(ws, pre) * Exp(ws[|pre|..], Given(pre, g))
    decreases |ws| - |pre|
  {
    var k := |pre|;
    if k == |ws| {
      assert pre + [] == pre;
    } else {
      var rest := ws[k + 1..];
      var t, f := Exp(rest, Given(pre + [true], g)), Exp(rest, Given(pre + [false], g));
      assert SumOverAssignments(ws, pre + [true], g) == Weight(ws, pre + [true]) * t by {
        SumIsScaledExp(ws, pre + [true], g);
      }
      assert SumOverAssignments(ws, pre + [false], g) == Weight(ws, pre + [false]) * f by {
        SumIsScaledExp(ws, pre + [false], g);
      }
      assert Exp(ws[k..], Given(pre, g)) == Mix(ws[k], t, f) by { ExpByNextBit(ws, pre, g); }
      WeightOfExtension(ws, pre, true);
      WeightOfExtension(ws, pre, false);
      Spread(Weight(ws, pre), ws[k], t, f, Weight(ws, pre + [true]), Weight(ws, pre + [false]),
        Exp(ws[k..], Given(pre, g)));
    }
  }

  lemma ExpByNextBit(ws: seq<real>, pre: seq<bool>, g: seq<bool> -> real)
    requires |pre| < |ws|
    ensures var rest := ws[|pre| + 1..];
            Exp(ws[|pre|..], Given(pre, g))
            == Mix(ws[|pre|], Exp(rest, Given(pre + [true], g)), Exp(rest, Given(pre + [false], g)))
  {
    var k := |pre|;
    GivenTwice(ws[k + 1..], pre, true, g);
    GivenTwice(ws[k + 1..], pre, false, g);
    assert ws[k..][1..] == ws[k + 1..];
  }

  lemma {:induction false} WeightOfExtension(ws: seq<real>, pre: seq<bool>, b: bool)
    requires |pre| < |ws|
    ensures Weight(ws, pre + [b]) == Weight(ws, pre) * (if b then ws[|pre|] else 1.0 - ws[|pre|])
  {
    var a := pre + [b];
    assert a[..|a| - 1] == pre && a[|a| - 1] == b;
  }

  lemma GivenTwice(ws: seq<real>, pre: seq<bool>, b: bool, g: seq<bool> -> real)
    ensures Exp(ws, Given([b], Given(pre, g))) == Exp(ws, Given(pre + [b], g))
  {
    forall a ensures Given([b], Given(pre, g))(a) == Given(pre + [b], g)(a) {
      assert pre + ([b] + a) == pre + [b] + a;
    }
    ExpCongruence(ws, Given([b], Given(pre, g)), Given(pre + [b], g));
  }

  lemma Spread(w: real, x: real, t: real, f: real, wt: real, wf: real, m: real)
    requires wt == w * x && wf == w * (1.0 - x) && m == Mix(x, t, f)
    ensures wt * t + wf * f == w * m
  {
    assert w * x * t == w * (x * t);
    assert w * (1.0 - x) * f == w * ((1.0 - x) * f);
  }

  /** `Exp` is the sum, over every assignment, of the product of the bit weights times `g`. */
  lemma ExpIsSumOverAssignments(ws: seq<real>, g: seq<bool> -> real)
    ensures Exp(ws, g) == SumOverAssignments(ws, [], g)
  {
    SumIsScaledExp(ws, [], g);
    assert ws[0..] == ws;
    forall a: seq<bool> ensures [] + a == a {}
    ExpCongruence(ws, g, Given([], g));
  }

  // ---------------------------------------------------------------- laws

  /** `a` is a possible assignment as far as the certain bits go. */
  ghost predicate Agrees(ws: seq<real>, a: seq<bool>) {
    |a| == |ws| && forall i | 0 <= i < |ws| :: (ws[i] == 1.0 ==> a[i]) && (ws[i] == 0.0 ==> !a[i])
  }

  lemma AgreesExtend(ws: seq<real>, b: bool, a: seq<bool>)
    requires ws != [] && ws[0] != (if b then 0.0 else 1.0) && Agrees(ws[1..], a)
    ensures Agrees(ws, [b] + a)
  {
    forall i | 0 <= i < |ws| ensures (ws[i] == 1.0 ==> ([b] + a)[i]) && (ws[i] == 0.0 ==> !([b] + a)[i]) {
      assert i > 0 ==> ws[i] == ws[1..][i - 1];
    }
  }

  lemma {:induction false} ExpCongruence(ws: seq<real>, g: seq<bool> -> real, h: seq<bool> -> real)
    requires forall a | Agrees(ws, a) :: g(a) == h(a)
    ensures Exp(ws, g) == Exp(ws, h)
    decreases |ws|
  {
    if ws == [] {
      assert Agrees(ws, []);
    } else {
      if ws[0] != 0.0 {
        forall a | Agrees(ws[1..], a) ensures Given([true], g)(a) == Given([true], h)(a) { AgreesExtend(ws, true, a); }
        ExpCongruence(ws[1..], Given([true], g), Given([true], h));
      }
      if ws[0] != 1.0 {
        forall a | Agrees(ws[1..], a) ensures Given([false], g)(a) == Given([false], h)(a) {
          AgreesExtend(ws, false, a);
        }
        ExpCongruence(ws[1..], Given([false], g), Given([false], h));
      }
    }
  }

  lemma {:induction false} ExpOfConstant(ws: seq<real>, c: real)
    ensures Exp(ws, _ => c) == c
    decreases |ws|
  {
    if ws != [] {
      ExpOfConstant(ws[1..], c);
      ExpCongruence(ws[1..], Given([true], _ => c), _ => c);
      ExpCongruence(ws[1..], Given([false], _ => c), _ => c);
    }
  }

  /** Conditioning on one bit. */
  lemma {:induction false} SplitExp(ws: seq<real>, g: seq<bool> -> real, v: nat)
    requires v < |ws|
    ensures Exp(ws, g) == Mix(ws[v], Exp(ws[v := 1.0], g), Exp(ws[v := 0.0], g))
    decreases |ws|
  {
    var one, zero := ws[v := 1.0], ws[v := 0.0];
    var gt, gf := Given([true], g), Given([false], g);
    if v == 0 {
      assert one[1..] == ws[1..] && zero[1..] == ws[1..];
    } else {
      assert one[1..] == ws[1..][v - 1 := 1.0] && zero[1..] == ws[1..][v - 1 := 0.0];
      SplitExp(ws[1..], gt, v - 1);
      SplitExp(ws[1..], gf, v - 1);
      MixMix(ws[0], ws[v], Exp(one[1..], gt), Exp(zero[1..], gt), Exp(one[1..], gf), Exp(zero[1..], gf));
    }
  }

  lemma MixMix(x: real, y: real, a: real, b: real, c: real, d: real)
    ensures Mix(x, Mix(y, a, b), Mix(y, c, d)) == Mix(y, Mix(x, a, c), Mix(x, b, d))
  {
    var u := 1.0 - x;
    assert x * (y * a + (1.0 - y) * b) + u * (y * c + (1.0 - y) * d)
        == y * (x * a + u * c) + (1.0 - y) * (x * b + u * d);
  }

  // ---------------------------------------------------------------- when an expectation vanishes

  /** `a` has positive probability. */
  ghost predicate Possible(ws: seq<real>, a: seq<bool>) {
    |a| == |ws| && forall i | 0 <= i < |ws| :: if a[i] then ws[i] > 0.0 else ws[i] < 1.0
  }

  ghost predicate Probabilities(ws: seq<real>) {
    forall i | 0 <= i < |ws| :: 0.0 <= ws[i] <= 1.0
  }

  ghost predicate NonNegative(n: nat, g: seq<bool> -> real) {
    forall a: seq<bool> | |a| == n :: g(a) >= 0.0
  }

  ghost predicate Vanishes(ws: seq<real>, g: seq<bool> -> real) {
    forall a: seq<bool> | Possible(ws, a) :: g(a) == 0.0
  }

  lemma ProductVanishes(x: real, a: real)
    requires 0.0 <= x && 0.0 <= a
    ensures x * a >= 0.0 && (x * a == 0.0 <==> x == 0.0 || a == 0.0)
  {
  }

  lemma MixVanishes(x: real, a: real, b: real)
    requires 0.0 <= x <= 1.0 && 0.0 <= a && 0.0 <= b
    ensures Mix(x, a, b) >= 0.0
    ensures Mix(x, a, b) == 0.0 <==> (x > 0.0 ==> a == 0.0) && (x < 1.0 ==> b == 0.0)
  {
    ProductVanishes(x, a);
    ProductVanishes(1.0 - x, b);
  }

  ghost predicate BitPossible(x: real, b: bool) {
    if b then x > 0.0 else x < 1.0
  }

  lemma {:induction false} PossibleSplits(ws: seq<real>, a: seq<bool>)
    requires |a| == |ws| && ws != []
    ensures a == [a[0]] + a[1..]
    ensures Possible(ws, a) <==> BitPossible(ws[0], a[0]) && Possible(ws[1..], a[1..])
  {
    if Possible(ws[1..], a[1..]) && BitPossible(ws[0], a[0]) {
      forall i | 0 <= i < |ws| ensures if a[i] then ws[i] > 0.0 else ws[i] < 1.0 {
        assert i > 0 ==> a[1..][i - 1] == a[i] && ws[1..][i - 1] == ws[i];
      }
    }
  }

  lemma {:induction false} VanishesSplits(ws: seq<real>, g: seq<bool> -> real)
    requires ws != []
    ensures Vanishes(ws, g) <==>
            && (BitPossible(ws[0], true) ==> Vanishes(ws[1..], Given([true], g)))
            && (BitPossible(ws[0], false) ==> Vanishes(ws[1..], Given([false], g)))
  {
    if Vanishes(ws, g) {
      forall b: bool, a: seq<bool> | BitPossible(ws[0], b) && Possible(ws[1..], a) ensures g([b] + a) == 0.0 {
        PossibleSplits(ws, [b] + a);
        assert ([b] + a)[1..] == a;
      }
    } else {
      var a: seq<bool> :| Possible(ws, a) && g(a) != 0.0;
      PossibleSplits(ws, a);
      assert Given([a[0]], g)(a[1..]) == g(a);
    }
  }

  /** The expectation of a non-negative function is 0 exactly if the function is 0 wherever it can be evaluated. */
  lemma {:induction false} ExpVanishesExactly(ws: seq<real>, g: seq<bool> -> real)
    requires Probabilities(ws) && NonNegative(|ws|, g)
    ensures Exp(ws, g) >= 0.0
    ensures Exp(ws, g) == 0.0 <==> Vanishes(ws, g)
  {
    if ws == [] {
      assert Possible(ws, []);
      assert forall a: seq<bool> | Possible(ws, a) :: a == [];
    } else {
      ExpVanishesExactly(ws[1..], Given([true], g));
      ExpVanishesExactly(ws[1..], Given([false], g));
      MixVanishes(ws[0], Exp(ws[1..], Given([true], g)), Exp(ws[1..], Given([false], g)));
      VanishesSplits(ws, g);
    }
  }
}
