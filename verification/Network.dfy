/** The logic network as the ACE passes see it: numbered objects, fanin and fanout lists, the latches in
    network order, and the depth-first order of the logic nodes. */
module Network {
  import opened Bdd

  datatype Kind = PI | PO | BI | BO | LATCH | NODE

  /** A latch box with the objects the code reaches from it: its input object BI (fanin 0), its output object BO
      (fanout 0) and the driver of the input object (fanin 0 of fanin 0). */
  datatype Latch = Latch(self: nat, input: nat, output: nat, driver: nat)

  datatype Ntk = Ntk(
    kind: seq<Kind>,
    fanins: seq<seq<nat>>,
    fanouts: seq<seq<nat>>,
    pData: seq<Edge>,       // the local function of a logic node, over its fanins
    latches: seq<Latch>,
    dfs: seq<nat>)          // Abc_NtkDfs: the logic nodes, fanins first
  {
    function Size(): nat {
      |kind|
    }
  }

  ghost predicate Shaped(n: Ntk) {
    && |n.fanins| == |n.kind| && |n.fanouts| == |n.kind| && |n.pData| == |n.kind|
    && (forall o, i | 0 <= o < |n.kind| && 0 <= i < |n.fanins[o]| :: n.fanins[o][i] < |n.kind|)
    && (forall o, i | 0 <= o < |n.kind| && 0 <= i < |n.fanouts[o]| :: n.fanouts[o][i] < |n.kind|)
    && (forall i | 0 <= i < |n.dfs| :: n.dfs[i] < |n.kind|)
  }

  // ---------------------------------------------------------------- latches

  /** Objects that carry a signal a logic node or a latch can read. */
  predicate IsSignal(k: Kind) {
    k == PI || k == BO || k == NODE
  }

  ghost predicate LatchWired(n: Ntk, l: Latch) {
    && l.self < n.Size() && l.input < n.Size() && l.output < n.Size() && l.driver < n.Size()
    && n.kind[l.self] == LATCH && n.kind[l.input] == BI && n.kind[l.output] == BO && IsSignal(n.kind[l.driver])
  }

  /** The record holds what the fanin and fanout lists say. */
  ghost predicate FollowsLists(n: Ntk, l: Latch)
    requires Shaped(n) && LatchWired(n, l)
  {
    && 0 < |n.fanins[l.self]| && n.fanins[l.self][0] == l.input && 0 < |n.fanins[l.input]|
      && n.fanins[l.input][0] == l.driver
    && 0 < |n.fanouts[l.self]| && n.fanouts[l.self][0] == l.output && n.fanins[l.output] == [l.self]
  }

  ghost predicate IsLatchOutput(n: Ntk, o: nat) {
    exists k: nat :: k < |n.latches| && n.latches[k].output == o
  }

  /** Every latch sits between an input and an output object of its own, and every BO belongs to a latch. */
  ghost predicate LatchesWired(n: Ntk)
    requires Shaped(n)
  {
    && (forall k: nat | k < |n.latches| :: LatchWired(n, n.latches[k]))
    && (forall k: nat {:trigger FollowsLists(n, n.latches[k])} | k < |n.latches| :: FollowsLists(n, n.latches[k]))
    && (forall j: nat, k: nat | j < k < |n.latches| ::
          && n.latches[j].self != n.latches[k].self
          && n.latches[j].input != n.latches[k].input
          && n.latches[j].output != n.latches[k].output)
    && (forall o: nat {:trigger IsLatchOutput(n, o)} | o < n.Size() && n.kind[o] == BO :: IsLatchOutput(n, o))
  }

  // ---------------------------------------------------------------- logic nodes

  /** Fanin `x` of the node at position `i` is a signal, and if it is a logic node it comes earlier. */
  ghost predicate FaninEarlier(n: Ntk, i: nat, x: nat)
    requires Shaped(n) && i < |n.dfs| && x < |n.fanins[n.dfs[i]]|
  {
    var f := n.fanins[n.dfs[i]][x];
    IsSignal(n.kind[f]) && (n.kind[f] == NODE ==> f in n.dfs[..i])
  }

  /** The local function of the node reads only its fanins. */
  ghost predicate Local(n: Ntk, o: nat)
    requires Shaped(n) && o < n.Size()
  {
    Within(n.pData[o], |n.fanins[o]|) && ReadOnce(n.pData[o])
  }

  /** The depth-first order lists every logic node once, after its logic fanins. */
  ghost predicate Ordered(n: Ntk)
    requires Shaped(n)
  {
    && (forall o | 0 <= o < |n.kind| :: n.kind[o] == NODE <==> o in n.dfs)
    && (forall i, j | 0 <= i < j < |n.dfs| :: n.dfs[i] != n.dfs[j])
    && (forall i: nat, x: nat {:trigger FaninEarlier(n, i, x)} | i < |n.dfs| && x < |n.fanins[n.dfs[i]]| ::
      FaninEarlier(n, i, x))
    && (forall o: nat {:trigger Local(n, o)} | o < |n.kind| && n.kind[o] == NODE :: Local(n, o))
  }

  ghost predicate WellFormed(n: Ntk) {
    Shaped(n) && LatchesWired(n) && Ordered(n)
  }

  /** The networks that reach the simulator. */
  type Net = n: Ntk | WellFormed(n) ghost witness Ntk([], [], [], [], [], [])

  /** The position of the latch whose output object is `o`. */
  ghost function LatchOf(n: Net, o: nat): (k: nat)
    requires o < n.Size() && n.kind[o] == BO
    ensures k < |n.latches| && n.latches[k].output == o
  {
    assert IsLatchOutput(n, o);
    var k: nat :| k < |n.latches| && n.latches[k].output == o;
    k
  }

  lemma LatchOfOutput(n: Net, k: nat)
    requires k < |n.latches|
    ensures n.latches[k].output < n.Size() && n.kind[n.latches[k].output] == BO && LatchOf(n, n.latches[k].output) == k
  {
    assert LatchWired(n, n.latches[k]);
  }

  /** 1 + the position of a logic node in the order; 0 for any other object. */
  ghost function Rank(n: Net, o: nat): (r: nat)
    requires o < n.Size()
    ensures n.kind[o] == NODE ==> 1 <= r <= |n.dfs| && n.dfs[r - 1] == o
    ensures n.kind[o] != NODE ==> r == 0
  {
    if n.kind[o] != NODE then 0
    else
      var i :| 0 <= i < |n.dfs| && n.dfs[i] == o;
      i + 1
  }

  lemma FaninsRankLower(n: Net, o: nat, x: nat)
    requires o < n.Size() && n.kind[o] == NODE && x < |n.fanins[o]|
    ensures IsSignal(n.kind[n.fanins[o][x]]) && Rank(n, n.fanins[o][x]) < Rank(n, o)
  {
    var i := Rank(n, o) - 1;
    var f := n.fanins[n.dfs[i]][x];
    assert FaninEarlier(n, i, x);
    if n.kind[f] == NODE {
      var j :| 0 <= j < i && n.dfs[..i][j] == f;
      assert n.dfs[j] == n.dfs[Rank(n, f) - 1];
    }
  }
}
