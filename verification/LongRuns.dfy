/** When the clamps of stage 4 abort on a record that a simulation leaves, for runs of every length: in short runs the
    closing assertions stop the records in question, in longer ones their tolerance lets them through. */
module LongRuns {
  import opened AceInfo
  import opened BddCalc
  import opened Network
  import opened Sim
  import opened SimActivities
  import opened SimCounters
  import opened SimLatches
  import opened Traces

  lemma OddStatic(p: real, c: real, z: real)
    requires c > 0.0 && 0.0 < z && 2.0 * z + 1.0 <= c && p == (c - z) / c
    ensures 0.0 < p < 1.0 && p * c == c - z && (1.0 - p) * c == z
  {
    assert p * c == c - z;
    assert (1.0 - p) * c == z;
    assert p <= 0.0 ==> p * c <= 0.0;
    var q := 1.0 - p;
    assert q <= 0.0 ==> q * c <= 0.0;
  }

  /** `up * (1 - p) == x / 2` and `x * c * d == y`, so `up == y / (2 d z)` where `z == (1 - p) * c`. */
  lemma UpFromParts(up: real, q: real, x: real, c: real, d: real, z: real, y: real)
    requires c > 0.0 && d >= 1.0 && z > 0.0 && q * c == z && up * q == 0.5 * x && x * d * c == y
    ensures up == y / (2.0 * d * z)
  {
    assert up * (q * c) == up * q * c;
    assert up * z == 0.5 * x * c;
    assert 2.0 * d * (up * z) == x * d * c;
    assert up * (2.0 * d * z) == 2.0 * d * (up * z);
  }

  /** The two macros on `2 z + 1` toggles and `z` zeros in `c` cycles. */
  lemma OddRatios(p: real, s: real, c: real, z: real, d: real)
    requires c > 0.0 && 0.0 < z && 2.0 * z + 1.0 <= c && d >= 1.0 && p == (c - z) / c && s == (2.0 * z + 1.0) / c
    ensures 0.0 < p < 1.0
    ensures P0to1(p, s / d) == (2.0 * z + 1.0) / (2.0 * d * z)
    ensures 0.0 <= P1to0(p, s / d) <= 1.0
  {
    OddStatic(p, c, z);
    var up, down, x := P0to1(p, s / d), P1to0(p, s / d), s / d;
    assert x * d == s && s * c == 2.0 * z + 1.0;
    assert up * (1.0 - p) == 0.5 * x && down * p == 0.5 * x;
    UpFromParts(up, 1.0 - p, x, c, d, z, 2.0 * z + 1.0);
    DownBelowOne(p, x, down, c, z, d);
  }

  lemma QuotientBelowOne(q: real, y: real, x: real)
    requires 0.0 <= x <= y && y > 0.0 && q * y == x
    ensures 0.0 <= q <= 1.0
  {
    var r := q - 1.0;
    assert r * y <= 0.0;
    assert r > 0.0 ==> r * y > 0.0;
    assert q < 0.0 ==> q * y < 0.0;
  }

  lemma DownBelowOne(p: real, sd: real, down: real, c: real, z: real, d: real)
    requires c > 0.0 && 0.0 < z && 2.0 * z + 1.0 <= c && d >= 1.0
    requires p * c == c - z && p > 0.0 && sd * d * c == 2.0 * z + 1.0 && down * p == 0.5 * sd
    ensures 0.0 <= down <= 1.0
  {
    var x := sd * c;
    assert x * d == sd * d * c;
    assert x < 0.0 ==> x * d < 0.0;
    assert x <= x * d;
    assert down * (c - z) == 0.5 * x by {
      assert down * (p * c) == (down * p) * c;
    }
    QuotientBelowOne(down, c - z, 0.5 * x);
  }

  lemma NoZerosClamp(i: Info, c: nat, d: int)
    requires d >= 1 && 1 <= c && i.staticProb == 1.0 && i.switchProb == 1.0 / c as real
    ensures ClampHolds(i, d)
  {
    RatioCompare(1.0, 1.0, c as real);
    ScalingShrinks(i.switchProb, d);
  }

  lemma SomeZerosClamp(i: Info, c: nat, z: nat, d: int)
    requires d >= 1 && 2 * z + 1 <= c && z > 0
    requires i.staticProb == (c - z) as real / c as real && i.switchProb == (2 * z + 1) as real / c as real
    ensures ClampHolds(i, d) <==> d >= 2 || z > 50000
  {
    OddRatios(i.staticProb, i.switchProb, c as real, z as real, d as real);
    UpClamps(z, d);
  }

  /** On a record with `z` isolated zeros and `2 z + 1` toggles a clamp aborts exactly if the depth factor is 1 and
      there are between 1 and 50000 zeros. */
  lemma OddRecordClamps(i: Info, c: nat, z: nat, d: int)
    requires d >= 1 && 2 * z + 1 <= c
    requires i.staticProb == (c - z) as real / c as real && i.switchProb == (2 * z + 1) as real / c as real
    ensures ClampHolds(i, d) <==> z == 0 || d >= 2 || z > 50000
  {
    if z == 0 {
      NoZerosClamp(i, c, d);
    } else {
      SomeZerosClamp(i, c, z, d);
    }
  }

  lemma ScalingShrinks(s: real, d: int)
    requires 0.0 <= s <= 1.0 && d >= 1
    ensures 0.0 <= 0.5 * (s / d as real) / 1.0 <= 1.0
  {
    RatioCompare(s, 1.0, d as real);
  }

  lemma StrictlyBelow(x: real, y: real, c: real)
    requires c > 0.0
    ensures x / c < y <==> x < y * c
  {
    var q := x / c;
    assert q * c == x;
    assert q < y ==> 0.0 < (y - q) * c;
    assert q >= y ==> 0.0 <= (q - y) * c;
  }

  lemma UpClamps(z: nat, d: int)
    requires z > 0 && d >= 1
    ensures var up := (2.0 * z as real + 1.0) / (2.0 * d as real * z as real);
            EpsilonFix(up).Some? <==> d >= 2 || z > 50000
  {
    var x, y, m := z as real, d as real, 2.0 * d as real * z as real;
    assert m == 2.0 * (y * x);
    assert d >= 2 ==> y * x >= 2.0 * x;
    assert y * x >= x;
    StrictlyBelow(2.0 * x + 1.0, 1.0 + EPSILON, m);
    StrictlyBelow(2.0 * x + 1.0, 0.0, m);
    EpsilonFixClamps((2.0 * x + 1.0) / m);
    assert (1.0 + EPSILON) * m == m + EPSILON * m;
  }

  lemma OddClamps(i: Info, c: nat, d: int)
    requires c > 0 && d >= 1 && Odd(i.sim, c)
    ensures ClampHolds(Averaged(i, c), d) <==> i.sim.numOnes == c || d >= 2 || c - i.sim.numOnes > 50000
  {
    OddRecordClamps(Averaged(i, c), c, c - i.sim.numOnes, d);
  }

  lemma EvenIsConsistent(a: Activity, cycles: nat)
    requires cycles > 0 && Even(a, cycles)
    ensures Consistent(a.numOnes as real / cycles as real, a.numToggles as real / cycles as real)
  {
    var c, ones, toggles := cycles as real, a.numOnes as real, a.numToggles as real;
    var p := ones / c;
    assert p * c == ones;
    RatioCompare(ones, 1.0, c);
    RatioCompare(toggles, 2.0 * p, c);
    RatioCompare(toggles, 2.0 * (1.0 - p), c);
    assert 2.0 * p * c == 2.0 * (p * c) && 2.0 * (1.0 - p) * c == 2.0 * c - 2.0 * (p * c);
  }

  lemma EvenClamps(i: Info, c: nat, d: int)
    requires c > 0 && d >= 1 && Even(i.sim, c)
    ensures ClampHolds(Averaged(i, c), d)
  {
    EvenIsConsistent(i.sim, c);
    ConsistentChain(Averaged(i, c), d);
  }

  // ---------------------------------------------------------------- records of a run

  ghost function Zeros(s: seq<int>): int {
    |s| - CountOnes(s)
  }

  /** The record of `o` comes from an input with 1 to 50000 zeros, all isolated, between ones at both ends. */
  ghost predicate Fragile(n: Net, cfg: seq<Info>, draw: (nat, nat) -> real, cycles: nat, o: nat)
    requires |cfg| == n.Size() && o < n.Size()
  {
    && Isolated(n, cfg, draw, cycles, Origin(n, o))
    && 1 <= Zeros(SimTrace(n, cfg, draw, cycles, Origin(n, o))) <= 50000
  }

  lemma FinalRecord(n: Net, cfg: seq<Info>, draw: (nat, nat) -> real, t: nat, o: nat)
    requires |cfg| == n.Size() && o < n.Size() && n.kind[Origin(n, o)] in {PI, NODE}
    ensures Run(n, cfg, draw, t + 1)[o].sim == Evaluated(n, cfg, draw, t)[Origin(n, o)].sim
  {
    if k: nat :| k < |n.latches| && Owns(n, k, o) {
      OriginOfLatch(n, k, o);
      LatchRecord(n, cfg, draw, t, k, o);
    } else {
      OriginOfOther(n, o);
      CarriedOver(n, cfg, draw, t, o);
    }
  }

  /** At the end of the run an object has the counters of the stream of its origin. */
  lemma FinalCounts(n: Net, cfg: seq<Info>, draw: (nat, nat) -> real, t: nat, o: nat)
    requires |cfg| == n.Size() && o < n.Size() && n.kind[Origin(n, o)] in {PI, NODE}
    ensures Matches(n.kind[Origin(n, o)], Run(n, cfg, draw, t + 1)[o].sim, SimTrace(n, cfg, draw, t + 1, Origin(n, o)))
  {
    FinalRecord(n, cfg, draw, t, o);
    CountersAreExact(n, cfg, draw, t, Origin(n, o));
  }

  lemma OnesOfOrigin(n: Net, cfg: seq<Info>, draw: (nat, nat) -> real, t: nat, o: nat)
    requires |cfg| == n.Size() && o < n.Size() && n.kind[Origin(n, o)] == PI
    ensures Run(n, cfg, draw, t + 1)[o].sim.numOnes == CountOnes(SimTrace(n, cfg, draw, t + 1, Origin(n, o)))
  {
    FinalRecord(n, cfg, draw, t, o);
    CountersAreExact(n, cfg, draw, t, Origin(n, o));
  }

  lemma IsolatedClamps(n: Net, cfg: seq<Info>, draw: (nat, nat) -> real, t: nat, o: nat, d: int)
    requires |cfg| == n.Size() && o < n.Size() && d >= 1 && Isolated(n, cfg, draw, t + 1, Origin(n, o))
    ensures ClampHolds(Averaged(Run(n, cfg, draw, t + 1)[o], t + 1), d) == !(d == 1 && Fragile(n, cfg, draw, t + 1, o))
  {
    RecordShape(n, cfg, draw, t, o);
    OnesOfOrigin(n, cfg, draw, t, o);
    OddClamps(Run(n, cfg, draw, t + 1)[o], t + 1, d);
  }

  /** In every network and for every length of run: a clamp aborts on the averaged record of an object exactly if the
      depth factor is 1 and the record comes from a fragile input. */
  lemma RecordClampsExactly(n: Net, cfg: seq<Info>, draw: (nat, nat) -> real, t: nat, o: nat, d: int)
    requires |cfg| == n.Size() && o < n.Size() && d >= 1
    ensures ClampHolds(Averaged(Run(n, cfg, draw, t + 1)[o], t + 1), d) == !(d == 1 && Fragile(n, cfg, draw, t + 1, o))
  {
    if Isolated(n, cfg, draw, t + 1, Origin(n, o)) {
      IsolatedClamps(n, cfg, draw, t, o, d);
    } else {
      RecordShape(n, cfg, draw, t, o);
      EvenClamps(Run(n, cfg, draw, t + 1)[o], t + 1, d);
    }
  }

  /** In a short run the closing assertions stop such an input before stage 4. */
  lemma ShortRunsStopFragile(n: Net, cfg: seq<Info>, draw: (nat, nat) -> real, cycles: nat, o: nat)
    requires |cfg| == n.Size() && o < n.Size() && ShortRun(cycles) && NoInputTrips(n, cfg, draw, cycles)
    ensures !Fragile(n, cfg, draw, cycles, o)
  {
    assert !InputTrips(n, cfg, draw, cycles, Origin(n, o));
  }
}
