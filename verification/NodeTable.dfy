/** `getNodeTable` (blifexplorer/src/odininterface.cpp): a worklist search that remembers the nodes by name. */
module NodeTable {

  /** The nodes of a netlist, numbered; the children lists are those of get_children_of. */
  datatype Netlist = Netlist(name: seq<string>, children: seq<seq<nat>>) {
    function Size(): nat {
      |name|
    }
  }

  ghost predicate Linked(net: Netlist) {
    && |net.children| == net.Size()
    && forall o, i | 0 <= o < |net.children| && 0 <= i < |net.children[o]| :: net.children[o][i] < net.Size()
  }

  type Nodes = net: Netlist | Linked(net) ghost witness Netlist([], [])

  ghost predicate Injective(net: Nodes) {
    forall a: nat, b: nat | a < net.Size() && b < net.Size() && net.name[a] == net.name[b] :: a == b
  }

  ghost predicate InRange(net: Nodes, q: seq<nat>) {
    forall i | 0 <= i < |q| :: q[i] < net.Size()
  }

  /** A chain of children from a seed to `o`. */
  ghost predicate Chain(net: Nodes, seeds: seq<nat>, p: seq<nat>, o: nat) {
    && p != [] && p[0] in seeds && p[|p| - 1] == o && InRange(net, p)
    && forall i | 0 <= i < |p| - 1 :: p[i + 1] in net.children[p[i]]
  }

  ghost predicate Reachable(net: Nodes, seeds: seq<nat>, o: nat) {
    exists p: seq<nat> :: Chain(net, seeds, p, o)
  }

  lemma SeedReachable(net: Nodes, seeds: seq<nat>, o: nat)
    requires InRange(net, seeds) && o in seeds
    ensures Reachable(net, seeds, o)
  {
    assert Chain(net, seeds, [o], o);
  }

  lemma ChildReachable(net: Nodes, seeds: seq<nat>, o: nat, kid: nat)
    requires o < net.Size() && kid in net.children[o] && Reachable(net, seeds, o)
    ensures Reachable(net, seeds, kid)
  {
    var p: seq<nat> :| Chain(net, seeds, p, o);
    assert Chain(net, seeds, p + [kid], kid);
  }

  ghost predicate ClosedUnderChildren(net: Nodes, done: set<nat>) {
    forall o: nat, i: nat | o < net.Size() && o in done && i < |net.children[o]| :: net.children[o][i] in done
  }

  lemma {:induction false} ChainStaysInside(net: Nodes, seeds: seq<nat>, p: seq<nat>, o: nat, done: set<nat>)
    requires Chain(net, seeds, p, o) && ClosedUnderChildren(net, done) && forall s: nat | s in seeds :: s in done
    ensures o in done
  {
    if |p| > 1 {
      var f := p[|p| - 2];
      ChainStaysInside(net, seeds, p[..|p| - 1], f, done);
      var i :| 0 <= i < |net.children[f]| && net.children[f][i] == o;
    }
  }

  // ---------------------------------------------------------------- the worklist

  ghost function Elements(q: seq<nat>): set<nat> {
    set x: nat | x in q
  }

  /** The nodes that are neither expanded nor waiting. */
  ghost function Unseen(net: Nodes, done: set<nat>, q: seq<nat>): set<nat> {
    set o: nat | o < net.Size() && o !in done && o !in q
  }

  /** What holds of the expanded nodes `done`, the queue and the table. */
  ghost predicate Searching(net: Nodes, seeds: seq<nat>, done: set<nat>, q: seq<nat>, table: map<string, nat>) {
    && InRange(net, q) && (forall o: nat | o in done :: o < net.Size() && Reachable(net, seeds, o))
    && (forall i | 0 <= i < |q| :: Reachable(net, seeds, q[i]))
    && (forall s: nat | s in seeds :: s in done || s in q)
    && (forall o: nat | o in done :: net.name[o] in table)
    && (forall key: string | key in table :: table[key] in done && net.name[table[key]] == key)
  }

  /** The children of `o` with index below `k` have been seen, at least by name. */
  ghost predicate ChildrenSeen(net: Nodes, o: nat, k: nat, q: seq<nat>, table: map<string, nat>)
    requires o < net.Size() && k <= |net.children[o]|
  {
    forall i: nat | i < k ::
      net.children[o][i] in q || (net.children[o][i] < net.Size() && net.name[net.children[o][i]] in table)
  }

  ghost predicate AllChildrenSeen(net: Nodes, done: set<nat>, q: seq<nat>, table: map<string, nat>) {
    forall o: nat | o in done && o < net.Size() :: ChildrenSeen(net, o, |net.children[o]|, q, table)
  }

  /** Every dequeuing beyond the repeated seeds expands a new node. */
  ghost predicate Balanced(seeds: seq<nat>, done: set<nat>, q: seq<nat>, items: nat) {
    items + |q| + |Elements(seeds)| == |seeds| + |done + Elements(q)|
  }

  lemma Dequeue(net: Nodes, seeds: seq<nat>, done: set<nat>, q: seq<nat>, table: map<string, nat>)
    requires Searching(net, seeds, done, q, table) && AllChildrenSeen(net, done, q, table) && q != []
    ensures Searching(net, seeds, done + {q[0]}, q[1..], table[net.name[q[0]] := q[0]])
    ensures AllChildrenSeen(net, done, q[1..], table[net.name[q[0]] := q[0]])
  {
    var o, rest, t := q[0], q[1..], table[net.name[q[0]] := q[0]];
    forall x: nat | x in q ensures x == o || x in rest {
      var i :| 0 <= i < |q| && q[i] == x;
      assert i > 0 ==> rest[i - 1] == x;
    }
    forall d: nat | d in done && d < net.Size() ensures ChildrenSeen(net, d, |net.children[d]|, rest, t) {
      assert ChildrenSeen(net, d, |net.children[d]|, q, table);
    }
  }

  lemma Enqueue(net: Nodes, seeds: seq<nat>, done: set<nat>, q: seq<nat>, table: map<string, nat>, o: nat, k: nat)
    requires Searching(net, seeds, done, q, table) && AllChildrenSeen(net, done - {o}, q, table)
    requires o in done && o < net.Size() && k < |net.children[o]| && ChildrenSeen(net, o, k, q, table)
    ensures Searching(net, seeds, done, q + [net.children[o][k]], table)
    ensures AllChildrenSeen(net, done - {o}, q + [net.children[o][k]], table)
    ensures ChildrenSeen(net, o, k + 1, q + [net.children[o][k]], table)
  {
    var kid := net.children[o][k];
    ChildReachable(net, seeds, o, kid);
    forall d: nat | d in done - {o} && d < net.Size()
      ensures ChildrenSeen(net, d, |net.children[d]|, q + [kid], table)
    {
      assert ChildrenSeen(net, d, |net.children[d]|, q, table);
    }
  }

  lemma BalanceDequeue(seeds: seq<nat>, done: set<nat>, q: seq<nat>, items: nat)
    requires Balanced(seeds, done, q, items) && q != []
    ensures Balanced(seeds, done + {q[0]}, q[1..], items + 1)
  {
    assert q == [q[0]] + q[1..];
    assert done + {q[0]} + Elements(q[1..]) == done + Elements(q);
  }

  lemma BalanceEnqueue(seeds: seq<nat>, done: set<nat>, q: seq<nat>, items: nat, kid: nat)
    requires Balanced(seeds, done, q, items) && kid !in done && kid !in q
    ensures Balanced(seeds, done, q + [kid], items)
  {
    assert done + Elements(q + [kid]) == done + Elements(q) + {kid};
  }

  /** Nothing left the queue, and if anything entered it, fewer nodes are unseen. */
  ghost predicate Grows(net: Nodes, done: set<nat>, p: seq<nat>, q: seq<nat>) {
    p == q || Unseen(net, done, q) < Unseen(net, done, p)
  }

  lemma EnqueueGrows(net: Nodes, done: set<nat>, q: seq<nat>, kid: nat)
    requires kid < net.Size() && kid !in done && kid !in q
    ensures Unseen(net, done, q + [kid]) < Unseen(net, done, q)
  {
    assert kid in Unseen(net, done, q) && kid !in Unseen(net, done, q + [kid]);
  }

  lemma MovedToDone(net: Nodes, done: set<nat>, q: seq<nat>)
    requires q != []
    ensures Unseen(net, done + {q[0]}, q[1..]) == Unseen(net, done, q)
  {
  }

  lemma FewerSeen(net: Nodes, done: set<nat>, fewer: set<nat>, q: seq<nat>, table: map<string, nat>)
    requires AllChildrenSeen(net, done, q, table) && fewer <= done
    ensures AllChildrenSeen(net, fewer, q, table)
  {
  }

  lemma StartSearch(net: Nodes, seeds: seq<nat>)
    requires InRange(net, seeds)
    ensures Searching(net, seeds, {}, seeds, map[]) && AllChildrenSeen(net, {}, seeds, map[])
    ensures Balanced(seeds, {}, seeds, 0)
  {
    forall i | 0 <= i < |seeds| ensures Reachable(net, seeds, seeds[i]) {
      SeedReachable(net, seeds, seeds[i]);
    }
    assert {} + Elements(seeds) == Elements(seeds);
  }

  /** When the queue is empty and no two nodes share a name, the expanded nodes are exactly the reachable ones. */
  lemma SearchIsComplete(net: Nodes, seeds: seq<nat>, done: set<nat>, table: map<string, nat>)
    requires Injective(net) && Searching(net, seeds, done, [], table) && AllChildrenSeen(net, done, [], table)
    ensures forall o: nat :: o in done <==> Reachable(net, seeds, o)
    ensures |table| == |done| && forall o: nat | o < net.Size() :: net.name[o] in table <==> o in done
  {
    forall o: nat, i: nat | o < net.Size() && o in done && i < |net.children[o]| ensures net.children[o][i] in done {
      assert ChildrenSeen(net, o, |net.children[o]|, [], table);
    }
    forall o: nat | Reachable(net, seeds, o) ensures o in done {
      var p: seq<nat> :| Chain(net, seeds, p, o);
      ChainStaysInside(net, seeds, p, o, done);
    }
    NamesMatch(net, done, table);
  }

  lemma {:induction false} NamesMatch(net: Nodes, done: set<nat>, table: map<string, nat>)
    requires Injective(net) && forall o: nat | o in done :: o < net.Size() && net.name[o] in table
    requires forall key: string | key in table :: table[key] in done && net.name[table[key]] == key
    ensures |table| == |done|
    decreases done
  {
    if done == {} {
      assert table.Keys == {};
    } else {
      var o: nat :| o in done;
      var rest := table - {net.name[o]};
      NamesMatch(net, done - {o}, rest);
      assert table.Keys == rest.Keys + {net.name[o]};
      assert |table.Keys| == |table| && |rest.Keys| == |rest|;
    }
  }

  lemma {:induction false} RepeatsCount(q: seq<nat>)
    ensures |Elements(q)| <= |q|
    ensures |Elements(q)| == |q| <==> forall i, j | 0 <= i < j < |q| :: q[i] != q[j]
  {
    if q != [] {
      var r, x := q[..|q| - 1], q[|q| - 1];
      RepeatsCount(r);
      assert Elements(q) == Elements(r) + {x};
      assert x in r <==> exists i :: 0 <= i < |q| - 1 && q[i] == q[|q| - 1];
    }
  }

  // ---------------------------------------------------------------- the procedure

  class OdinInterface {
    const netlist: Nodes
    const topInputs: seq<nat>
    const constants: seq<nat>     // gnd_node, vcc_node, pad_node
    var nodequeue: seq<nat>

    constructor (netlist: Nodes, topInputs: seq<nat>, constants: seq<nat>)
      requires InRange(netlist, topInputs) && InRange(netlist, constants)
      ensures Valid() && this.netlist == netlist && Seeds() == topInputs + constants
    {
      this.netlist, this.topInputs, this.constants, nodequeue := netlist, topInputs, constants, [];
    }

    ghost predicate Valid()
      reads this
    {
      InRange(netlist, nodequeue) && InRange(netlist, topInputs) && InRange(netlist, constants)
    }

    ghost function Seeds(): seq<nat>
      reads this
    {
      nodequeue + topInputs + constants
    }

    method EnqueueSeeds()
      requires Valid()
      modifies `nodequeue
      ensures Valid() && nodequeue == old(Seeds())
    {
      for i := 0 to |topInputs|
        invariant nodequeue == old(nodequeue) + topInputs[..i] && Valid()
      {
        nodequeue := nodequeue + [topInputs[i]];
      }
      assert topInputs[..|topInputs|] == topInputs;
      for i := 0 to |constants|
        invariant nodequeue == old(nodequeue) + topInputs + constants[..i] && Valid()
      {
        nodequeue := nodequeue + [constants[i]];
      }
      assert constants[..|constants|] == constants;
    }

    /** Enqueues child `i` if it is neither waiting nor in the table. */
    method EnqueueChild(node: nat, i: nat, table: map<string, nat>, ghost seeds: seq<nat>, ghost done: set<nat>,
                        ghost items: nat)
      requires node < netlist.Size() && node in done && i < |netlist.children[node]|
      requires Searching(netlist, seeds, done, nodequeue, table)
      requires AllChildrenSeen(netlist, done - {node}, nodequeue, table)
      requires ChildrenSeen(netlist, node, i, nodequeue, table) && Balanced(seeds, done, nodequeue, items)
      modifies `nodequeue
      ensures Searching(netlist, seeds, done, nodequeue, table)
      ensures AllChildrenSeen(netlist, done - {node}, nodequeue, table)
      ensures ChildrenSeen(netlist, node, i + 1, nodequeue, table) && Balanced(seeds, done, nodequeue, items)
      ensures Grows(netlist, done, old(nodequeue), nodequeue)
    {
      var kid := netlist.children[node][i];
      if kid !in nodequeue && netlist.name[kid] !in table {
        Enqueue(netlist, seeds, done, nodequeue, table, node, i);
        BalanceEnqueue(seeds, done, nodequeue, items, kid);
        EnqueueGrows(netlist, done, nodequeue, kid);
        nodequeue := nodequeue + [kid];
      }
    }

    method EnqueueChildren(node: nat, table: map<string, nat>, ghost seeds: seq<nat>, ghost done: set<nat>,
                           ghost items: nat)
      requires node < netlist.Size() && node in done
      requires Searching(netlist, seeds, done, nodequeue, table)
      requires AllChildrenSeen(netlist, done - {node}, nodequeue, table)
      requires Balanced(seeds, done, nodequeue, items)
      modifies `nodequeue
      ensures Searching(netlist, seeds, done, nodequeue, table) && AllChildrenSeen(netlist, done, nodequeue, table)
      ensures Balanced(seeds, done, nodequeue, items) && Grows(netlist, done, old(nodequeue), nodequeue)
    {
      var kids := netlist.children[node];
      for i := 0 to |kids|
        invariant Searching(netlist, seeds, done, nodequeue, table)
        invariant AllChildrenSeen(netlist, done - {node}, nodequeue, table)
        invariant ChildrenSeen(netlist, node, i, nodequeue, table) && Balanced(seeds, done, nodequeue, items)
        invariant Grows(netlist, done, old(nodequeue), nodequeue)
      {
        EnqueueChild(node, i, table, seeds, done, items);
      }
    }

    /** Takes the next node off the queue, puts it into the table and looks at its children. */
    method ExpandNext(before: map<string, nat>, ghost seeds: seq<nat>, ghost was: set<nat>, ghost items: nat)
      returns (table: map<string, nat>, ghost done: set<nat>)
      requires Searching(netlist, seeds, was, nodequeue, before) && AllChildrenSeen(netlist, was, nodequeue, before)
      requires Balanced(seeds, was, nodequeue, items) && nodequeue != []
      modifies `nodequeue
      ensures Searching(netlist, seeds, done, nodequeue, table) && AllChildrenSeen(netlist, done, nodequeue, table)
      ensures Balanced(seeds, done, nodequeue, items + 1)
      ensures Unseen(netlist, done, nodequeue) < Unseen(netlist, was, old(nodequeue))
              || (Unseen(netlist, done, nodequeue) == Unseen(netlist, was, old(nodequeue))
                && |nodequeue| < |old(nodequeue)|)
    {
      var node := nodequeue[0];
      Dequeue(netlist, seeds, was, nodequeue, before);
      BalanceDequeue(seeds, was, nodequeue, items);
      MovedToDone(netlist, was, nodequeue);
      nodequeue := nodequeue[1..];
      table := before[netlist.name[node] := node];
      done := was + {node};
      FewerSeen(netlist, was, done - {node}, nodequeue, table);
      EnqueueChildren(node, table, seeds, done, items + 1);
    }

    /** The main loop. */
    method Drain(ghost seeds: seq<nat>) returns (table: map<string, nat>, items: nat, ghost done: set<nat>)
      requires InRange(netlist, seeds) && nodequeue == seeds
      modifies `nodequeue
      ensures nodequeue == []
      ensures Searching(netlist, seeds, done, [], table) && AllChildrenSeen(netlist, done, [], table)
      ensures Balanced(seeds, done, [], items)
    {
      done, table, items := {}, map[], 0;
      StartSearch(netlist, seeds);
      while nodequeue != []
        invariant Searching(netlist, seeds, done, nodequeue, table) && AllChildrenSeen(netlist, done, nodequeue, table)
        invariant Balanced(seeds, done, nodequeue, items)
        decreases Unseen(netlist, done, nodequeue), |nodequeue|
      {
        table, done := ExpandNext(table, seeds, done, items);
        items := items + 1;
      }
    }

    /** The table holds, under their names, exactly the nodes that the seeds reach, if no two nodes share a name; in
        any netlist it holds only such nodes.  Nodes are expanded once each, and a repeated seed once more for each
        repetition. */
    method GetNodeTable() returns (table: map<string, nat>, items: nat)
      requires Valid()
      modifies `nodequeue
      ensures nodequeue == []
      ensures forall key: string | key in table ::
                table[key] < netlist.Size() && netlist.name[table[key]] == key
                  && Reachable(netlist, old(Seeds()), table[key])
      ensures forall o: nat | o in old(Seeds()) && o < netlist.Size() :: netlist.name[o] in table
      ensures Injective(netlist) ==>
                forall o: nat | o < netlist.Size() :: netlist.name[o] in table <==> Reachable(netlist, old(Seeds()), o)
      ensures Injective(netlist) ==> items + |Elements(old(Seeds()))| == |table| + |old(Seeds())|
    {
      EnqueueSeeds();
      ghost var done;
      table, items, done := Drain(old(Seeds()));
      if Injective(netlist) {
        SearchIsComplete(netlist, old(Seeds()), done, table);
        assert done + Elements([]) == done;
      }
    }
  }
}
