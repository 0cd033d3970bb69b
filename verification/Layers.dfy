/** `computeLayers` (blifexplorer/src/container.cpp): a worklist that places a unit to the right of its parents once
    they have all been placed, and does not wait for the parents of latches and memories. */
module Layers {
  import opened NodeTable

  /** The units of the drawing; a unit and the netlist node of the same name have the same number. */
  datatype Scene = Scene(
    net: Netlist,
    parents: seq<seq<nat>>,   // start units of the wires that end here
    exempt: seq<bool>,        // latches and memories
    visible: seq<bool>,
    output: seq<bool>)        // "top^out" is part of the name
  {
    function Size(): nat {
      net.Size()
    }
  }

  /** Wires are drawn along the children lists: a unit is among the children of each of its parents. */
  ghost predicate WiresFollowChildren(u: Scene)
    requires Linked(u.net) && |u.parents| == u.Size()
    requires forall o, i | 0 <= o < |u.parents| && 0 <= i < |u.parents[o]| :: u.parents[o][i] < u.Size()
  {
    forall o: nat, i: nat | o < u.Size() && i < |u.parents[o]| :: o in u.net.children[u.parents[o][i]]
  }

  ghost predicate Drawn(u: Scene) {
    && Linked(u.net) && Injective(u.net)
    && |u.parents| == |u.exempt| == |u.visible| == |u.output| == u.Size()
    && (forall o, i | 0 <= o < |u.parents| && 0 <= i < |u.parents[o]| :: u.parents[o][i] < u.Size())
    && WiresFollowChildren(u)
  }

  type Units = u: Scene | Drawn(u) ghost witness Scene(Netlist([], []), [], [], [], [])

  // ---------------------------------------------------------------- which units are processed

  ghost predicate ParentsIn(u: Units, o: nat, done: set<nat>)
    requires o < u.Size()
  {
    forall i: nat | i < |u.parents[o]| :: u.parents[o][i] in done
  }

  ghost predicate IsChildOf(u: Units, o: nat, p: nat) {
    p < u.Size() && o in u.net.children[p]
  }

  /** A child of a processed unit that need not wait any longer. */
  ghost predicate Eligible(u: Units, o: nat, done: set<nat>)
    requires o < u.Size()
  {
    && (exists p: nat :: p in done && IsChildOf(u, o, p))
    && (u.exempt[o] || ParentsIn(u, o, done))
  }

  /** `done` holds the seeds and every unit that is eligible from it. */
  ghost predicate Saturated(u: Units, seeds: seq<nat>, done: set<nat>) {
    && (forall o: nat | o in seeds :: o in done)
    && (forall o: nat | o < u.Size() && Eligible(u, o, done) :: o in done)
  }

  lemma EligibleGrows(u: Units, o: nat, done: set<nat>, more: set<nat>)
    requires o < u.Size() && Eligible(u, o, done) && done <= more
    ensures Eligible(u, o, more)
  {
  }

  ghost predicate NoRepeats(q: seq<nat>) {
    forall i, j | 0 <= i < j < |q| :: q[i] != q[j]
  }

  /** Each processed unit was a seed, or eligible from the units processed before it. */
  ghost predicate Justified(u: Units, seeds: seq<nat>, order: seq<nat>) {
    InRange(u.net, order) && forall i | 0 <= i < |order| ::
      order[i] in seeds || Eligible(u, order[i], Elements(order[..i]))
  }

  /** The units in the queue are seeds, or eligible from the processed ones. */
  ghost predicate Waiting(u: Units, seeds: seq<nat>, order: seq<nat>, q: seq<nat>) {
    InRange(u.net, q) && forall i | 0 <= i < |q| :: q[i] in seeds || Eligible(u, q[i], Elements(order))
  }

  /** Nothing eligible is missing. */
  ghost predicate Complete(u: Units, order: seq<nat>, q: seq<nat>) {
    forall o: nat | o < u.Size() && Eligible(u, o, Elements(order)) :: o in order || o in q
  }

  ghost predicate SeedsSeen(seeds: seq<nat>, order: seq<nat>, q: seq<nat>) {
    forall o: nat | o in seeds :: o in order || o in q
  }

  /** What is processed lies in every saturated set. */
  lemma {:induction false} JustifiedIsLeast(u: Units, seeds: seq<nat>, order: seq<nat>, done: set<nat>, k: nat)
    requires Justified(u, seeds, order) && Saturated(u, seeds, done) && k <= |order|
    ensures Elements(order[..k]) <= done
  {
    if k > 0 {
      JustifiedIsLeast(u, seeds, order, done, k - 1);
      if order[k - 1] !in seeds {
        EligibleGrows(u, order[k - 1], Elements(order[..k - 1]), done);
      }
      assert order[..k] == order[..k - 1] + [order[k - 1]];
    }
  }

  lemma JustifiedNext(u: Units, seeds: seq<nat>, order: seq<nat>, q: seq<nat>)
    requires Justified(u, seeds, order) && Waiting(u, seeds, order, q) && q != []
    ensures Justified(u, seeds, order + [q[0]]) && Waiting(u, seeds, order + [q[0]], q[1..])
  {
    var next := order + [q[0]];
    assert next[..|order|] == order;
    forall i | 0 <= i < |next| ensures next[i] in seeds || Eligible(u, next[i], Elements(next[..i])) {
      assert i < |order| ==> next[..i] == order[..i];
    }
    forall i | 0 <= i < |q[1..]| && q[1..][i] !in seeds ensures Eligible(u, q[1..][i], Elements(next)) {
      assert q[1..][i] == q[i + 1];
      EligibleGrows(u, q[i + 1], Elements(order), Elements(next));
    }
  }

  lemma MoveKeepsSeen(order: seq<nat>, q: seq<nat>, o: nat)
    requires q != []
    ensures (o in order || o in q) == (o in order + [q[0]] || o in q[1..])
  {
  }

  lemma MoveKeepsDistinct(order: seq<nat>, q: seq<nat>)
    requires q != [] && NoRepeats(order + q)
    ensures NoRepeats(order + [q[0]] + q[1..])
  {
    assert order + [q[0]] + q[1..] == order + q;
  }

  // ---------------------------------------------------------------- where they are placed

  /** The largest layer of the units in `ps`, or -1 if there are none. */
  function MaxLayer(layers: seq<int>, ps: seq<nat>): (m: int)
    requires forall i | 0 <= i < |ps| :: ps[i] < |layers|
    ensures forall i | 0 <= i < |ps| :: layers[ps[i]] <= m
    ensures m == -1 || exists i :: 0 <= i < |ps| && layers[ps[i]] == m
    ensures m >= -1
  {
    if ps == [] then -1
    else
      var rest := MaxLayer(layers, ps[..|ps| - 1]);
      if layers[ps[|ps| - 1]] > rest then layers[ps[|ps| - 1]] else rest
  }

  lemma {:induction false} MaxLayerReads(a: seq<int>, b: seq<int>, ps: seq<nat>)
    requires |a| == |b| && forall i | 0 <= i < |ps| :: ps[i] < |a| && a[ps[i]] == b[ps[i]]
    ensures MaxLayer(a, ps) == MaxLayer(b, ps)
  {
    if ps != [] {
      MaxLayerReads(a, b, ps[..|ps| - 1]);
    }
  }

  /** Placed only after all of its parents. */
  ghost predicate Orderly(u: Units, seeds: seq<nat>, o: nat)
    requires o < u.Size()
  {
    !u.exempt[o] && (o in seeds ==> u.parents[o] == [])
  }

  ghost predicate InLayer(u: Units, layers: seq<int>, o: nat)
    requires |layers| == u.Size() && o < u.Size()
  {
    u.visible[o] ==> layers[o] == MaxLayer(layers, u.parents[o]) + 1
  }

  /** Every orderly unit processed so far has processed parents, and is one layer beyond the last of them. */
  ghost predicate Placed(u: Units, seeds: seq<nat>, order: seq<nat>, layers: seq<int>) {
    && |layers| == u.Size()
    && forall o: nat | o in order && o < u.Size() && Orderly(u, seeds, o) ::
         ParentsIn(u, o, Elements(order)) && InLayer(u, layers, o)
  }

  /** Placing `n` moves no unit that was placed before. */
  lemma PlaceNext(u: Units, seeds: seq<nat>, order: seq<nat>, layers: seq<int>, n: nat)
    requires Placed(u, seeds, order, layers) && n < u.Size() && n !in order
    requires n in seeds || Eligible(u, n, Elements(order))
    ensures Placed(u, seeds, order + [n], PlaceUnit(u, layers, n))
  {
    var next := PlaceUnit(u, layers, n);
    forall o: nat | o in order + [n] && o < u.Size() && Orderly(u, seeds, o)
      ensures ParentsIn(u, o, Elements(order + [n])) && InLayer(u, next, o)
    {
      assert ParentsIn(u, o, Elements(order));
      assert o == n || InLayer(u, layers, o);
      MaxLayerReads(layers, next, u.parents[o]);
    }
  }

  ghost function PlaceUnit(u: Units, layers: seq<int>, n: nat): seq<int>
    requires |layers| == u.Size() && n < u.Size()
  {
    if u.visible[n] then layers[n := MaxLayer(layers, u.parents[n]) + 1] else layers
  }

  /** When the units in `past` had been placed, `p` was in this layer. */
  ghost function LayerThen(was: seq<int>, layers: seq<int>, past: seq<nat>, p: nat): int
    requires p < |was| == |layers|
  {
    if p in past then layers[p] else was[p]
  }

  /** Unit `o` is one layer right of the rightmost parent as things were then, and in layer 0 if that is the leftmost
      possible. */
  ghost predicate RightThen(u: Units, was: seq<int>, layers: seq<int>, past: seq<nat>, o: nat)
    requires |was| == |layers| == u.Size() && o < u.Size()
  {
    && (forall i: nat | i < |u.parents[o]| :: LayerThen(was, layers, past, u.parents[o][i]) < layers[o])
    && (layers[o] == 0 || exists i: nat ::
          i < |u.parents[o]| && LayerThen(was, layers, past, u.parents[o][i]) + 1 == layers[o])
  }

  /** Every visible unit, latches and memories included, got its layer from the layers of its parents at its turn. */
  ghost predicate LaidOut(u: Units, was: seq<int>, order: seq<nat>, layers: seq<int>) {
    && |was| == |layers| == u.Size()
    && (forall o: nat | o < u.Size() && (o !in order || !u.visible[o]) :: layers[o] == was[o])
    && forall k: nat | k < |order| && order[k] < u.Size() && u.visible[order[k]] ::
         RightThen(u, was, layers, order[..k], order[k])
  }

  lemma LaidOutNext(u: Units, was: seq<int>, order: seq<nat>, layers: seq<int>, n: nat)
    requires LaidOut(u, was, order, layers) && n < u.Size() && n !in order
    ensures LaidOut(u, was, order + [n], PlaceUnit(u, layers, n))
  {
    var more, next := order + [n], PlaceUnit(u, layers, n);
    forall k: nat | k < |more| && more[k] < u.Size() && u.visible[more[k]]
      ensures RightThen(u, was, next, more[..k], more[k])
    {
      if k < |order| {
        assert more[..k] == order[..k] && more[k] == order[k] != n;
        RightStays(u, was, layers, next, order[..k], order[k], n);
      } else {
        assert more[..k] == order;
        RightNow(u, was, order, layers, n);
      }
    }
  }

  lemma RightStays(u: Units, was: seq<int>, layers: seq<int>, next: seq<int>, past: seq<nat>, o: nat, n: nat)
    requires |was| == |layers| == |next| == u.Size() && o < u.Size() && o != n && n !in past
    requires RightThen(u, was, layers, past, o) && forall p: nat | p < u.Size() && p != n :: next[p] == layers[p]
    ensures RightThen(u, was, next, past, o)
  {
    forall p: nat | p < u.Size() ensures LayerThen(was, next, past, p) == LayerThen(was, layers, past, p) {
    }
    if layers[o] != 0 {
      var i: nat :| i < |u.parents[o]| && LayerThen(was, layers, past, u.parents[o][i]) + 1 == layers[o];
      assert LayerThen(was, next, past, u.parents[o][i]) + 1 == next[o];
    }
  }

  lemma RightNow(u: Units, was: seq<int>, order: seq<nat>, layers: seq<int>, n: nat)
    requires LaidOut(u, was, order, layers) && n < u.Size() && n !in order && u.visible[n]
    ensures RightThen(u, was, PlaceUnit(u, layers, n), order, n)
  {
    var next, m := PlaceUnit(u, layers, n), MaxLayer(layers, u.parents[n]);
    forall p: nat | p < u.Size() ensures LayerThen(was, next, order, p) == layers[p] {
    }
    if m != -1 {
      var i: nat :| i < |u.parents[n]| && layers[u.parents[n][i]] == m;
      assert LayerThen(was, next, order, u.parents[n][i]) + 1 == next[n];
    }
  }

  ghost predicate Bounded(layers: seq<int>, max: int) {
    forall o: nat | o < |layers| :: layers[o] <= max
  }

  // ---------------------------------------------------------------- the worklist

  ghost predicate Scheduling(u: Units, seeds: seq<nat>, order: seq<nat>, q: seq<nat>) {
    && Justified(u, seeds, order) && Waiting(u, seeds, order, q)
    && NoRepeats(order + q) && SeedsSeen(seeds, order, q)
  }

  /** Nothing eligible is missing, but for the children of `n` from the k-th on. */
  ghost predicate CompleteBut(u: Units, order: seq<nat>, q: seq<nat>, n: nat, k: nat)
    requires n < u.Size() && k <= |u.net.children[n]|
  {
    forall o: nat | o < u.Size() && Eligible(u, o, Elements(order)) ::
      o in order || o in q || o in u.net.children[n][k..]
  }

  ghost predicate Named(u: Units, order: seq<nat>, done: set<string>) {
    forall o: nat | o < u.Size() :: u.net.name[o] in done <==> o in order
  }

  lemma StartScheduling(u: Units, seeds: seq<nat>)
    requires InRange(u.net, seeds) && NoRepeats(seeds)
    ensures Scheduling(u, seeds, [], seeds) && Complete(u, [], seeds)
  {
  }

  lemma SchedulingNext(u: Units, seeds: seq<nat>, order: seq<nat>, q: seq<nat>)
    requires Scheduling(u, seeds, order, q) && q != []
    ensures Scheduling(u, seeds, order + [q[0]], q[1..]) && q[0] !in order && q[0] < u.Size()
    ensures q[0] in seeds || Eligible(u, q[0], Elements(order))
  {
    JustifiedNext(u, seeds, order, q);
    MoveKeepsDistinct(order, q);
    forall o: nat | o in seeds ensures o in order + [q[0]] || o in q[1..] {
      MoveKeepsSeen(order, q, o);
    }
    forall i | 0 <= i < |order| ensures order[i] != q[0] {
      assert (order + q)[i] != (order + q)[|order|];
    }
  }

  /** Nothing but a child of the unit can become eligible by processing it: looking at the children is enough. */
  lemma CompleteNext(u: Units, order: seq<nat>, q: seq<nat>)
    requires Complete(u, order, q) && q != [] && q[0] < u.Size()
    ensures CompleteBut(u, order + [q[0]], q[1..], q[0], 0)
  {
  }

  lemma Skip(u: Units, order: seq<nat>, q: seq<nat>, n: nat, k: nat)
    requires n < u.Size() && k < |u.net.children[n]| && CompleteBut(u, order, q, n, k)
    requires var kid := u.net.children[n][k];
             kid in q || kid in order || (kid < u.Size() && !Eligible(u, kid, Elements(order)))
    ensures CompleteBut(u, order, q, n, k + 1)
  {
  }

  lemma Admit(u: Units, seeds: seq<nat>, order: seq<nat>, q: seq<nat>, n: nat, k: nat)
    requires n < u.Size() && n in order && k < |u.net.children[n]|
    requires Scheduling(u, seeds, order, q) && CompleteBut(u, order, q, n, k)
    requires var kid := u.net.children[n][k];
             kid !in q && kid !in order && kid < u.Size() && (u.exempt[kid] || ParentsIn(u, kid, Elements(order)))
    ensures Scheduling(u, seeds, order, q + [u.net.children[n][k]])
    ensures CompleteBut(u, order, q + [u.net.children[n][k]], n, k + 1)
  {
    var kid := u.net.children[n][k];
    assert n in Elements(order) && IsChildOf(u, kid, n);
    assert order + (q + [kid]) == order + q + [kid];
    assert u.net.children[n][k..] == [kid] + u.net.children[n][k + 1..];
  }

  // ---------------------------------------------------------------- first come, first served

  /** After the first `k` units of `order` the unit may be processed: it is a seed, or eligible. */
  ghost predicate Ready(u: Units, seeds: seq<nat>, order: seq<nat>, k: nat, o: nat)
    requires k <= |order|
  {
    o in seeds || (o < u.Size() && Eligible(u, o, Elements(order[..k])))
  }

  /** Whoever stands before another was ready no later. */
  ghost predicate NoLater(u: Units, seeds: seq<nat>, order: seq<nat>, a: nat, b: nat) {
    forall k: nat | k <= |order| && Ready(u, seeds, order, k, b) :: Ready(u, seeds, order, k, a)
  }

  /** The seeds come first, in their order, and all others in the order in which they became ready. */
  ghost predicate InTurn(u: Units, seeds: seq<nat>, order: seq<nat>, q: seq<nat>) {
    && seeds <= order + q
    && forall i, j | 0 <= i < j < |order + q| :: NoLater(u, seeds, order, (order + q)[i], (order + q)[j])
  }

  /** Whatever was ready before the last unit was processed has been admitted. */
  ghost predicate CaughtUp(u: Units, order: seq<nat>, q: seq<nat>) {
    order != [] ==> forall o: nat | o < u.Size() && Eligible(u, o, Elements(order[..|order| - 1])) :: o in order + q
  }

  lemma ReadyGrows(u: Units, seeds: seq<nat>, order: seq<nat>, k: nat, m: nat, o: nat)
    requires k <= m <= |order|
    ensures Ready(u, seeds, order, k, o) ==> Ready(u, seeds, order, m, o)
  {
    assert order[..k] <= order[..m];
    if Ready(u, seeds, order, k, o) && o !in seeds {
      EligibleGrows(u, o, Elements(order[..k]), Elements(order[..m]));
    }
  }

  /** Everybody in the queue, or out of it, is ready by now. */
  lemma ReadyNow(u: Units, seeds: seq<nat>, order: seq<nat>, q: seq<nat>, i: nat)
    requires Justified(u, seeds, order) && Waiting(u, seeds, order, q) && i < |order + q|
    ensures Ready(u, seeds, order, |order|, (order + q)[i])
  {
    assert order[..|order|] == order;
    if i < |order| {
      assert Ready(u, seeds, order, i, order[i]);
      ReadyGrows(u, seeds, order, i, |order|, order[i]);
    }
  }

  lemma StartInTurn(u: Units, seeds: seq<nat>)
    ensures InTurn(u, seeds, [], seeds) && CaughtUp(u, [], seeds)
  {
    assert [] + seeds == seeds;
  }

  lemma DequeueInTurn(u: Units, seeds: seq<nat>, order: seq<nat>, q: seq<nat>)
    requires Scheduling(u, seeds, order, q) && Complete(u, order, q) && q != [] && InTurn(u, seeds, order, q)
    ensures InTurn(u, seeds, order + [q[0]], q[1..]) && CaughtUp(u, order + [q[0]], q[1..])
  {
    var next, rest := order + [q[0]], q[1..];
    assert next + rest == order + q;
    assert next[..|next| - 1] == order;
    SchedulingNext(u, seeds, order, q);
    forall i, j | 0 <= i < j < |next + rest| ensures NoLater(u, seeds, next, (next + rest)[i], (next + rest)[j]) {
      ReadyNow(u, seeds, next, rest, i);
      StillNoLater(u, seeds, order, next, (order + q)[i], (order + q)[j]);
    }
  }

  lemma StillNoLater(u: Units, seeds: seq<nat>, order: seq<nat>, next: seq<nat>, a: nat, b: nat)
    requires NoLater(u, seeds, order, a, b) && |next| == |order| + 1 && next[..|order|] == order
    requires Ready(u, seeds, next, |next|, a)
    ensures NoLater(u, seeds, next, a, b)
  {
    forall k: nat | k <= |next| && Ready(u, seeds, next, k, b) ensures Ready(u, seeds, next, k, a) {
      if k <= |order| {
        assert next[..k] == order[..k];
        assert Ready(u, seeds, order, k, b);
        assert Ready(u, seeds, order, k, a);
      }
    }
  }

  lemma EnqueueInTurn(u: Units, seeds: seq<nat>, order: seq<nat>, q: seq<nat>, kid: nat)
    requires Scheduling(u, seeds, order, q) && InTurn(u, seeds, order, q) && CaughtUp(u, order, q)
    requires order != [] && kid !in order && kid !in q
    ensures InTurn(u, seeds, order, q + [kid]) && CaughtUp(u, order, q + [kid])
  {
    var more := q + [kid];
    assert order + more == order + q + [kid];
    forall i, j | 0 <= i < j < |order + more|
      ensures NoLater(u, seeds, order, (order + more)[i], (order + more)[j])
    {
      if j < |order + q| {
        assert NoLater(u, seeds, order, (order + q)[i], (order + q)[j]);
      } else {
        LastIsLatest(u, seeds, order, q, i, kid);
      }
    }
  }

  lemma LastIsLatest(u: Units, seeds: seq<nat>, order: seq<nat>, q: seq<nat>, i: nat, kid: nat)
    requires Scheduling(u, seeds, order, q) && CaughtUp(u, order, q)
    requires order != [] && kid !in order && kid !in q && i < |order + q|
    ensures NoLater(u, seeds, order, (order + q)[i], kid)
  {
    ReadyNow(u, seeds, order, q, i);
    assert kid !in order + q && kid !in seeds;
    var last: nat := |order| - 1;
    assert !Ready(u, seeds, order, last, kid);
    forall k: nat | k < |order| ensures !Ready(u, seeds, order, k, kid) {
      ReadyGrows(u, seeds, order, k, last, kid);
    }
  }

  // ---------------------------------------------------------------- the result

  /** The layers, with the outputs moved to `max`. */
  ghost function OutputsAt(u: Units, layers: seq<int>, max: int): (t: seq<int>)
    requires |layers| == u.Size()
    ensures |t| == u.Size()
  {
    seq(|layers|, o requires 0 <= o < |layers| => if u.output[o] then max else layers[o])
  }

  /** In the finished drawing a visible unit lies strictly right of exactly those parents that are not outputs, and
      is no further right than it must be. */
  ghost predicate RightOfParents(u: Units, layers: seq<int>, o: nat)
    requires |layers| == u.Size() && o < u.Size()
  {
    && (forall i: nat | i < |u.parents[o]| :: layers[u.parents[o][i]] < layers[o] <==> !u.output[u.parents[o][i]])
    && (!u.output[o] && (forall i: nat | i < |u.parents[o]| :: !u.output[u.parents[o][i]]) ==>
          layers[o] == MaxLayer(layers, u.parents[o]) + 1)
  }

  lemma PlacedIsRight(u: Units, seeds: seq<nat>, order: seq<nat>, layers: seq<int>, max: int, o: nat)
    requires Placed(u, seeds, order, layers) && Bounded(layers, max) && max >= 0
    requires o in order && o < u.Size() && Orderly(u, seeds, o) && u.visible[o]
    ensures RightOfParents(u, OutputsAt(u, layers, max + 1), o)
  {
  }

  /** An empty queue: what was processed is the least saturated set. */
  lemma EmptyQueueIsLeast(u: Units, seeds: seq<nat>, order: seq<nat>)
    requires Scheduling(u, seeds, order, []) && Complete(u, order, [])
    ensures NoRepeats(order) && Saturated(u, seeds, Elements(order))
    ensures forall done: set<nat> | Saturated(u, seeds, done) :: Elements(order) <= done
  {
    assert order + [] == order && order[..|order|] == order;
    forall done: set<nat> | Saturated(u, seeds, done) ensures Elements(order) <= done {
      JustifiedIsLeast(u, seeds, order, done, |order|);
    }
  }

  /** The unit's parents are processed too, and it is right of them. */
  ghost predicate Settled(u: Units, order: seq<nat>, layers: seq<int>, o: nat)
    requires |layers| == u.Size() && o < u.Size()
  {
    ParentsIn(u, o, Elements(order)) && RightOfParents(u, layers, o)
  }

  /** The orderly and visible units among the processed ones that are not settled. */
  ghost function Unsettled(u: Units, seeds: seq<nat>, order: seq<nat>, layers: seq<int>): set<nat>
    requires |layers| == u.Size()
  {
    set o: nat | o in order && o < u.Size() && Orderly(u, seeds, o) && u.visible[o] && !Settled(u, order, layers, o)
  }

  lemma AllSettled(u: Units, seeds: seq<nat>, order: seq<nat>, layers: seq<int>, max: int, final: seq<int>)
    requires Placed(u, seeds, order, layers) && Bounded(layers, max) && max >= 0
    requires final == OutputsAt(u, layers, max + 1)
    ensures Unsettled(u, seeds, order, final) == {}
  {
    forall o: nat | o in order && o < u.Size() && Orderly(u, seeds, o) && u.visible[o]
      ensures Settled(u, order, final, o)
    {
      PlacedIsRight(u, seeds, order, layers, max, o);
    }
  }

  /** What moving the outputs one layer past all others does to the rest. */
  lemma OutputsGoLast(u: Units, order: seq<nat>, was: seq<int>, layers: seq<int>, start: int, max: int,
                      final: seq<int>)
    requires |was| == |layers| == u.Size() && Bounded(layers, max) && final == OutputsAt(u, layers, max + 1)
    requires max == start || exists o: nat :: o in order && o < |layers| && layers[o] == max
    requires forall o: nat | o < u.Size() && (o !in order || !u.visible[o]) :: layers[o] == was[o]
    ensures max == start || exists o: nat :: o in order && o < u.Size() && (u.output[o] || final[o] == max)
    ensures forall o: nat | o < u.Size() :: if u.output[o] then final[o] == max + 1 else final[o] < max + 1
    ensures forall o: nat | o < u.Size() && !u.output[o] && (o !in order || !u.visible[o]) :: final[o] == was[o]
  {
    if max != start {
      var o: nat :| o in order && o < |layers| && layers[o] == max;
      assert u.output[o] || final[o] == max;
    }
  }

  /** An output with one child, which is processed after it. */
  const OUTPUT_FIRST := Scene(Netlist(["top^out", "n"], [[1], []]), [[], [0]], [false, false], [true, true],
    [true, false])

  /** The child of an output ends on its left. */
  lemma OutputParentOnTheRight()
    ensures Drawn(OUTPUT_FIRST) && Justified(OUTPUT_FIRST, [0], [0, 1]) && Placed(OUTPUT_FIRST, [0], [0, 1], [0, 1])
    ensures OutputsAt(OUTPUT_FIRST, [0, 1], 2) == [2, 1]
  {
    assert OUTPUT_FIRST.net.name[0] != OUTPUT_FIRST.net.name[1] by {
      assert |"top^out"| != |"n"|;
    }
    OutputFirstIsPlaced(OUTPUT_FIRST);
  }

  lemma OutputFirstIsPlaced(u: Units)
    requires u == OUTPUT_FIRST
    ensures Justified(u, [0], [0, 1]) && Placed(u, [0], [0, 1], [0, 1])
  {
    assert IsChildOf(u, 1, 0) && [0, 1][..1] == [0];
    assert 0 in Elements([0]) && ParentsIn(u, 1, Elements([0])) && ParentsIn(u, 1, Elements([0, 1]));
    assert Eligible(u, 1, Elements([0]));
    assert MaxLayer([0, 1], u.parents[0]) == -1 && MaxLayer([0, 1], u.parents[1]) == 0;
  }

  // ---------------------------------------------------------------- the procedure

  class Container {
    const units: Units
    const layers: array<int>      // myLayer of each unit
    var maxlayer: int

    ghost predicate Valid()
      reads this, layers
    {
      layers.Length == units.Size() && Bounded(layers[..], maxlayer) && maxlayer >= 0
    }

    constructor (units: Units)
      ensures Valid() && this.units == units && fresh(layers)
    {
      this.units := units;
      layers := new int[|units.net.name|](_ => 0);
      maxlayer := 0;
    }

    method GetMaxParentLayer(node: nat) returns (result: int)
      requires Valid() && node < units.Size()
      ensures result == MaxLayer(layers[..], units.parents[node])
    {
      var parents := units.parents[node];
      result := -1;
      for i := 0 to |parents|
        invariant result == MaxLayer(layers[..], parents[..i])
      {
        assert parents[..i + 1][..i] == parents[..i];
        if layers[parents[i]] > result {
          result := layers[parents[i]];
        }
      }
      assert parents[..|parents|] == parents;
    }

    /** Latches and memories need not wait, as they may be part of a cycle. */
    method ParentsDone(unit: nat, done: set<string>, ghost order: seq<nat>) returns (result: bool)
      requires unit < units.Size() && Named(units, order, done)
      ensures result <==> units.exempt[unit] || ParentsIn(units, unit, Elements(order))
    {
      if units.exempt[unit] {
        return true;
      }
      var parents := units.parents[unit];
      result := true;
      for i := 0 to |parents|
        invariant result <==> forall j: nat | j < i :: parents[j] in Elements(order)
      {
        if units.net.name[parents[i]] !in done {
          result := false;
        }
      }
    }

    method EnqueueChild(node: nat, i: nat, done: set<string>, q: seq<nat>, ghost seeds: seq<nat>, ghost order: seq<nat>)
      returns (next: seq<nat>)
      requires node < units.Size() && node in order && i < |units.net.children[node]| && Named(units, order, done)
      requires Scheduling(units, seeds, order, q) && CompleteBut(units, order, q, node, i)
      requires InTurn(units, seeds, order, q) && CaughtUp(units, order, q)
      ensures Scheduling(units, seeds, order, next) && CompleteBut(units, order, next, node, i + 1)
      ensures InTurn(units, seeds, order, next) && CaughtUp(units, order, next)
      ensures Grows(units.net, Elements(order), q, next)
    {
      var kid := units.net.children[node][i];
      var ready := ParentsDone(kid, done, order);
      if kid !in q && units.net.name[kid] !in done && ready {
        Admit(units, seeds, order, q, node, i);
        EnqueueInTurn(units, seeds, order, q, kid);
        EnqueueGrows(units.net, Elements(order), q, kid);
        next := q + [kid];
      } else {
        Skip(units, order, q, node, i);
        next := q;
      }
    }

    method EnqueueChildren(node: nat, done: set<string>, q: seq<nat>, ghost seeds: seq<nat>, ghost order: seq<nat>)
      returns (next: seq<nat>)
      requires node < units.Size() && node in order && Named(units, order, done)
      requires Scheduling(units, seeds, order, q) && CompleteBut(units, order, q, node, 0)
      requires InTurn(units, seeds, order, q) && CaughtUp(units, order, q)
      ensures Scheduling(units, seeds, order, next) && Complete(units, order, next)
      ensures InTurn(units, seeds, order, next)
      ensures Grows(units.net, Elements(order), q, next)
    {
      next := q;
      for i := 0 to |units.net.children[node]|
        invariant Scheduling(units, seeds, order, next) && CompleteBut(units, order, next, node, i)
        invariant InTurn(units, seeds, order, next) && CaughtUp(units, order, next)
        invariant Grows(units.net, Elements(order), q, next)
      {
        next := EnqueueChild(node, i, done, next, seeds, order);
      }
    }

    /** Gives the unit its layer. */
    method Place(node: nat, ghost seeds: seq<nat>, ghost order: seq<nat>)
      requires Valid() && node < units.Size() && node !in order && Placed(units, seeds, order, layers[..])
      requires node in seeds || Eligible(units, node, Elements(order))
      modifies `maxlayer, layers
      ensures Valid() && Placed(units, seeds, order + [node], layers[..])
      ensures maxlayer == old(maxlayer) || maxlayer == layers[node]
      ensures layers[..] == PlaceUnit(units, old(layers[..]), node)
    {
      PlaceNext(units, seeds, order, layers[..], node);
      var maxparent := GetMaxParentLayer(node);
      if units.visible[node] {
        layers[node] := maxparent + 1;
      }
      assert layers[..] == PlaceUnit(units, old(layers[..]), node);
      if layers[node] > maxlayer {
        maxlayer := layers[node];
      }
    }

    /** Dequeues a unit, places it, and enqueues its children that are ready. */
    method ProcessNext(before: seq<nat>, was: set<string>, ghost seeds: seq<nat>, ghost past: seq<nat>)
      returns (q: seq<nat>, done: set<string>)
      requires Valid() && before != [] && Scheduling(units, seeds, past, before) && Complete(units, past, before)
      requires Named(units, past, was) && Placed(units, seeds, past, layers[..]) && InTurn(units, seeds, past, before)
      modifies `maxlayer, layers
      ensures var order := past + [before[0]];
              && Valid() && Scheduling(units, seeds, order, q) && Complete(units, order, q)
              && Named(units, order, done) && Placed(units, seeds, order, layers[..]) && InTurn(units, seeds, order, q)
              && (Unseen(units.net, Elements(order), q) < Unseen(units.net, Elements(past), before)
                  || (Unseen(units.net, Elements(order), q) == Unseen(units.net, Elements(past), before)
                    && |q| < |before|))
      ensures before[0] !in past && before[0] < units.Size()
      ensures maxlayer == old(maxlayer) || maxlayer == layers[before[0]]
      ensures layers[..] == PlaceUnit(units, old(layers[..]), before[0])
    {
      var node := before[0];
      SchedulingNext(units, seeds, past, before);
      CompleteNext(units, past, before);
      DequeueInTurn(units, seeds, past, before);
      MovedToDone(units.net, Elements(past), before);
      assert Elements(past + [node]) == Elements(past) + {node};
      Place(node, seeds, past);
      done := was + {units.net.name[node]};
      q := EnqueueChildren(node, done, before[1..], seeds, past + [node]);
    }

    /** The last layer is the one of some processed unit, or still `start`. */
    ghost predicate Tight(start: int, order: seq<nat>)
      reads this, layers
    {
      maxlayer == start || exists o: nat :: o in order && o < layers.Length && layers[o] == maxlayer
    }

    method Process(seeds: seq<nat>) returns (ghost order: seq<nat>)
      requires Valid() && InRange(units.net, seeds) && NoRepeats(seeds)
      modifies `maxlayer, layers
      ensures Valid() && Scheduling(units, seeds, order, []) && Complete(units, order, [])
      ensures Placed(units, seeds, order, layers[..]) && InTurn(units, seeds, order, [])
      ensures LaidOut(units, old(layers[..]), order, layers[..]) && Tight(old(maxlayer), order)
    {
      var q, done := seeds, {};
      order := [];
      StartScheduling(units, seeds);
      StartInTurn(units, seeds);
      while q != []
        invariant Valid() && Scheduling(units, seeds, order, q) && Complete(units, order, q)
        invariant Named(units, order, done) && Placed(units, seeds, order, layers[..])
        invariant InTurn(units, seeds, order, q) && LaidOut(units, old(layers[..]), order, layers[..])
        invariant Tight(old(maxlayer), order)
        decreases Unseen(units.net, Elements(order), q), |q|
      {
        ghost var next, before := order + [q[0]], layers[..];
        SchedulingNext(units, seeds, order, q);
        LaidOutNext(units, old(layers[..]), order, before, q[0]);
        q, done := ProcessNext(q, done, seeds, order);
        order := next;
      }
    }

    /** Moves the outputs to the last layer; the outer loop repeats the same assignments. */
    method PlaceOutputs()
      requires layers.Length == units.Size() && maxlayer >= 0
      modifies layers
      ensures layers[..] == OutputsAt(units, old(layers[..]), maxlayer)
    {
      for i := 0 to maxlayer + 1
        invariant layers[..] == if i == 0 then old(layers[..]) else OutputsAt(units, old(layers[..]), maxlayer)
      {
        PlaceOutputsOnce();
        assert layers[..] == OutputsAt(units, old(layers[..]), maxlayer);
      }
    }

    method PlaceOutputsOnce()
      requires layers.Length == units.Size()
      modifies layers
      ensures layers[..] == OutputsAt(units, old(layers[..]), maxlayer)
    {
      for o := 0 to layers.Length
        invariant forall j: nat | j < o :: layers[j] == if units.output[j] then maxlayer else old(layers[..])[j]
        invariant forall j: nat | o <= j < layers.Length :: layers[j] == old(layers[..])[j]
      {
        if units.output[o] {
          layers[o] := maxlayer;
        }
      }
    }

    /** Opens a last layer for the outputs, after the units of `order` have been placed. */
    method AppendOutputs(ghost seeds: seq<nat>, ghost order: seq<nat>, ghost was: seq<int>, ghost start: int)
      requires Valid() && Placed(units, seeds, order, layers[..]) && Tight(start, order)
      requires LaidOut(units, was, order, layers[..])
      modifies `maxlayer, layers
      ensures Valid() && maxlayer == old(maxlayer) + 1
      ensures maxlayer == start + 1
              || exists o: nat :: o in order && o < units.Size() && (units.output[o] || layers[o] == maxlayer - 1)
      ensures Unsettled(units, seeds, order, layers[..]) == {}
      ensures forall o: nat | o < units.Size() ::
                if units.output[o] then layers[o] == maxlayer else layers[o] < maxlayer
      ensures LaidOut(units, was, order, old(layers[..])) && layers[..] == OutputsAt(units, old(layers[..]), maxlayer)
    {
      ghost var placed := layers[..];
      maxlayer := maxlayer + 1;
      PlaceOutputs();
      AllSettled(units, seeds, order, placed, maxlayer - 1, layers[..]);
      OutputsGoLast(units, order, was, placed, start, maxlayer - 1, layers[..]);
    }

    /** Dequeues each unit at most once, in the order in which they become ready, processes exactly the least set that
        holds the seeds and what is eligible from it, and leaves every processed visible unit that is no latch or
        memory right of its parents.  `placed` are the layers before the outputs are moved to the last one. */
    method ComputeLayers(topInputs: seq<nat>, constants: seq<nat>)
      returns (ghost order: seq<nat>, ghost placed: seq<int>)
      requires Valid() && InRange(units.net, topInputs + constants) && NoRepeats(topInputs + constants)
      modifies `maxlayer, layers
      ensures Valid() && NoRepeats(order)
      ensures maxlayer == old(maxlayer) + 1
              || exists o: nat :: o in order && o < units.Size() && (units.output[o] || layers[o] == maxlayer - 1)
      ensures Saturated(units, topInputs + constants, Elements(order))
      ensures forall done: set<nat> | Saturated(units, topInputs + constants, done) :: Elements(order) <= done
      ensures Unsettled(units, topInputs + constants, order, layers[..]) == {}
      ensures forall o: nat | o < units.Size() ::
              if units.output[o] then layers[o] == maxlayer else layers[o] < maxlayer
      ensures InTurn(units, topInputs + constants, order, [])
      ensures LaidOut(units, old(layers[..]), order, placed) && layers[..] == OutputsAt(units, placed, maxlayer)
    {
      var seeds := topInputs + constants;
      order := Process(seeds);
      EmptyQueueIsLeast(units, seeds, order);
      placed := layers[..];
      AppendOutputs(seeds, order, old(layers[..]), old(maxlayer));
    }
  }
}
