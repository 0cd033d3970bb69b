/** The per-object activity record and the transition-probability macros (ace2/ace.h),
    with the clamp `prob_epsilon_fix` (ace2/ace.c).  Doubles are exact reals. */
module AceInfo {

  datatype Option<+T> = None | Some(value: T)

  datatype Status = UNDEF | DEF | SIM | NEW | OLD

  /** The fields that the simulator keeps for one object. */
  datatype Activity = Activity(status: Status, value: int, numOnes: int, numToggles: int)

  datatype Info = Info(
    sim: Activity,
    flag: int,
    depth: int,
    values: Option<seq<int>>,
    staticProb: real,
    switchProb: real,
    switchAct: real,
    prob0to1: real,
    prob1to0: real)

  const EPSILON: real := 0.00001

  function P0to1(p: real, s: real): real {
    if p == 0.0 then 0.0 else if p == 1.0 then 1.0 else 0.5 * s / (1.0 - p)
  }

  /** The macro tests `p == 0.0` twice, so `p == 1.0` takes the last branch. */
  function P1to0(p: real, s: real): real {
    if p == 0.0 then 1.0 else if p == 0.0 then 0.0 else 0.5 * s / p
  }

  /** `prob_epsilon_fix`: None when one of its assertions fails. */
  function EpsilonFix(d: real): Option<real> {
    if d < 0.0 then (if d > 0.0 - EPSILON then Some(0.0) else None)
    else if d > 1.0 then (if d < 1.0 + EPSILON then Some(1.0) else None)
    else Some(d)
  }

  /** The nearest probability. */
  function Clamp(d: real): (p: real)
    ensures 0.0 <= p <= 1.0
  {
    if d < 0.0 then 0.0 else if d > 1.0 then 1.0 else d
  }

  /** A one-probability `p` and a switching probability `s` that some stationary 0/1 process has. */
  ghost predicate Consistent(p: real, s: real) {
    0.0 <= p <= 1.0 && 0.0 <= s <= 2.0 * p && s <= 2.0 * (1.0 - p)
  }

  /** `up` and `down` are the transition probabilities of a chain whose stationary one-probability is `p`. */
  ghost predicate Stationary(p: real, up: real, down: real) {
    && 0.0 <= p <= 1.0 && 0.0 <= up <= 1.0 && 0.0 <= down <= 1.0
    && (1.0 - p) * up + p * (1.0 - down) == p
  }

  lemma ScalingStaysConsistent(p: real, s: real, d: int)
    requires Consistent(p, s) && d >= 1
    ensures Consistent(p, s / d as real)
  {
    var r, q := d as real, s / d as real;
    assert q * r == s;
    assert q < 0.0 ==> q * r < 0.0;
    assert q >= 0.0 ==> q * 1.0 <= q * r;
  }

  lemma RatioBelowOne(x: real, y: real)
    requires 0.0 <= x <= y && y > 0.0
    ensures 0.0 <= x / y <= 1.0 && (x / y) * y == x
  {
    var q := x / y;
    assert q * y == x;
    assert q < 0.0 ==> q * y < 0.0;
    assert q > 1.0 ==> q * y > 1.0 * y;
  }

  /** The macros give the transition probabilities of a chain with one-probability `p`: for a fair share `s`
      the chain moves up with frequency `s / 2` and down with frequency `s / 2`, also at `p == 0` and `p == 1`. */
  lemma MacrosAreStationary(p: real, s: real)
    requires Consistent(p, s)
    ensures Stationary(p, P0to1(p, s), P1to0(p, s))
    ensures EpsilonFix(P0to1(p, s)) == Some(P0to1(p, s)) && EpsilonFix(P1to0(p, s)) == Some(P1to0(p, s))
    ensures 0.0 < p < 1.0 ==> (1.0 - p) * P0to1(p, s) == s / 2.0 == p * P1to0(p, s)
  {
    if 0.0 < p < 1.0 {
      RatioBelowOne(0.5 * s, 1.0 - p);
      RatioBelowOne(0.5 * s, p);
    }
  }

  /** The clamp accepts exactly the values within EPSILON of the unit interval, and moves only those outside. */
  lemma EpsilonFixClamps(d: real)
    ensures EpsilonFix(d).Some? <==> -EPSILON < d < 1.0 + EPSILON
    ensures EpsilonFix(d).Some? ==> EpsilonFix(d).value == Clamp(d)
    ensures EpsilonFix(d) == Some(d) <==> 0.0 <= d <= 1.0
  {
  }
}
