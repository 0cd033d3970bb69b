/** Logic depth (ace2/depth.c): one pass over the depth-first order finds the longest paths. */
module Depth {
  import opened AceInfo
  import opened Network

  // ---------------------------------------------------------------- paths of logic nodes

  /** Logic nodes, each read by the next. */
  ghost predicate LogicPath(n: Net, p: seq<nat>) {
    && (forall i | 0 <= i < |p| :: p[i] < n.Size() && n.kind[p[i]] == NODE)
    && (forall i | 0 <= i < |p| - 1 :: p[i] in n.fanins[p[i + 1]])
  }

  ghost predicate EndsAt(n: Net, p: seq<nat>, o: nat) {
    p != [] && LogicPath(n, p) && p[|p| - 1] == o
  }

  /** The longest path of logic nodes that ends at `o` has `d` nodes. */
  ghost predicate Longest(n: Net, o: nat, d: int) {
    && (exists p: seq<nat> :: EndsAt(n, p, o) && |p| == d)
    && (forall p: seq<nat> | EndsAt(n, p, o) :: |p| <= d)
  }

  lemma Extend(n: Net, p: seq<nat>, f: nat, o: nat)
    requires o < n.Size() && n.kind[o] == NODE && EndsAt(n, p, f) && f in n.fanins[o]
    ensures EndsAt(n, p + [o], o)
  {
    var q := p + [o];
    forall i | 0 <= i < |q| - 1 ensures q[i] in n.fanins[q[i + 1]] {
      assert i < |p| - 1 ==> p[i] in n.fanins[p[i + 1]];
    }
  }

  /** `d` is the largest depth among the fanins of `o`, or 0 if it has none. */
  ghost predicate DeepestFanin(n: Net, o: nat, s: seq<Info>, d: int)
    requires |s| == n.Size() && o < n.Size()
  {
    && (forall i: nat | i < |n.fanins[o]| :: s[n.fanins[o][i]].depth <= d)
    && (d == 0 || exists i: nat :: i < |n.fanins[o]| && s[n.fanins[o][i]].depth == d)
    && d >= 0
  }

  /** The depth of `f` is right, if it is a logic node, and 0 otherwise. */
  ghost predicate DepthRight(n: Net, s: seq<Info>, f: nat)
    requires |s| == n.Size() && f < n.Size()
  {
    if n.kind[f] == NODE then Longest(n, f, s[f].depth) else s[f].depth == 0
  }

  lemma LongestAbove(n: Net, o: nat, s: seq<Info>, d: int)
    requires |s| == n.Size() && o < n.Size() && n.kind[o] == NODE && DeepestFanin(n, o, s, d)
    requires forall i: nat | i < |n.fanins[o]| :: DepthRight(n, s, n.fanins[o][i])
    ensures Longest(n, o, d + 1)
  {
    if d == 0 {
      assert EndsAt(n, [o], o);
    } else {
      var i: nat :| i < |n.fanins[o]| && s[n.fanins[o][i]].depth == d;
      var f := n.fanins[o][i];
      assert DepthRight(n, s, f);
      var p: seq<nat> :| EndsAt(n, p, f) && |p| == d;
      Extend(n, p, f, o);
    }
    forall p: seq<nat> | EndsAt(n, p, o) ensures |p| <= d + 1 {
      if |p| >= 2 {
        NoLongerBelow(n, o, s, d, p);
      }
    }
  }

  lemma NoLongerBelow(n: Net, o: nat, s: seq<Info>, d: int, p: seq<nat>)
    requires |s| == n.Size() && o < n.Size() && n.kind[o] == NODE && DeepestFanin(n, o, s, d)
    requires forall i: nat | i < |n.fanins[o]| :: DepthRight(n, s, n.fanins[o][i])
    requires EndsAt(n, p, o) && |p| >= 2
    ensures |p| <= d + 1
  {
    var front, f := p[..|p| - 1], p[|p| - 2];
    FrontEnds(n, p);
    var i: nat :| i < |n.fanins[o]| && n.fanins[o][i] == f;
    assert DepthRight(n, s, n.fanins[o][i]);
    assert EndsAt(n, front, f) && |front| <= s[f].depth;
  }

  lemma FrontEnds(n: Net, p: seq<nat>)
    requires LogicPath(n, p) && |p| >= 2
    ensures EndsAt(n, p[..|p| - 1], p[|p| - 2]) && p[|p| - 2] in n.fanins[p[|p| - 1]]
  {
    var q, last := p[..|p| - 1], |p| - 2;
    forall i | 0 <= i < |q| - 1 ensures q[i] in n.fanins[q[i + 1]] {
      assert p[i] in n.fanins[p[i + 1]];
    }
    assert p[last] in n.fanins[p[last + 1]];
  }

  /** Every edge between logic nodes goes strictly deeper, and every logic node has depth at least 1. */
  lemma DepthsIncrease(n: Net, f: nat, o: nat, a: int, b: int)
    requires o < n.Size() && n.kind[o] == NODE && f in n.fanins[o] && Longest(n, f, a) && Longest(n, o, b)
    ensures 1 <= a < b
  {
    var p: seq<nat> :| EndsAt(n, p, f) && |p| == a;
    Extend(n, p, f, o);
  }

  lemma LongestIsUnique(n: Net, o: nat, a: int, b: int)
    requires Longest(n, o, a) && Longest(n, o, b)
    ensures a == b && a >= 1
  {
    var p: seq<nat> :| EndsAt(n, p, o) && |p| == a;
    var q: seq<nat> :| EndsAt(n, q, o) && |q| == b;
  }

  // ---------------------------------------------------------------- the pass

  method CalcDepth(n: Net, info: array<Info>, obj: nat) returns (depth: int)
    requires info.Length == n.Size() && obj < n.Size()
    ensures n.kind[obj] in {NODE, PO, BI} ==> DeepestFanin(n, obj, info[..], depth - 1)
    ensures n.kind[obj] !in {NODE, PO, BI} ==> depth == 0
  {
    depth := 0;
    match n.kind[obj]
    case NODE | PO | BI =>
      for i := 0 to |n.fanins[obj]|
        invariant depth >= 0
        invariant forall j: nat | j < i :: info[..][n.fanins[obj][j]].depth <= depth
        invariant depth == 0 || exists j: nat :: j < i && info[..][n.fanins[obj][j]].depth == depth
      {
        var fanin := n.fanins[obj][i];
        if info[fanin].depth > depth {
          depth := info[fanin].depth;
          assert info[..][n.fanins[obj][i]].depth == depth;
        }
      }
      return depth + 1;
    case _ =>
      return 0;
  }

  /** The first `k` nodes of the order have the right depth; the other objects have depth 0. */
  ghost predicate Settled(n: Net, s: seq<Info>, k: nat)
    requires |s| == n.Size() && k <= |n.dfs|
  {
    && (forall o: nat | o < n.Size() && n.kind[o] != NODE :: s[o].depth == 0)
    && (forall i: nat | i < k :: Longest(n, n.dfs[i], s[n.dfs[i]].depth))
  }

  lemma FaninsSettled(n: Net, s: seq<Info>, k: nat)
    requires |s| == n.Size() && k < |n.dfs| && Settled(n, s, k)
    ensures forall i: nat | i < |n.fanins[n.dfs[k]]| :: DepthRight(n, s, n.fanins[n.dfs[k]][i])
  {
    var o := n.dfs[k];
    forall i: nat | i < |n.fanins[o]| ensures DepthRight(n, s, n.fanins[o][i]) {
      assert FaninEarlier(n, k, i);
    }
  }

  /** The records differ from `was` in the depth of logic nodes only. */
  ghost predicate OnlyDepths(n: Net, was: seq<Info>, s: seq<Info>) {
    && |was| == |s| == n.Size()
    && forall o: nat | o < n.Size() :: s[o] == if n.kind[o] == NODE then was[o].(depth := s[o].depth) else was[o]
  }

  /** `d` is the length of the longest path among the first `k` nodes, or 0 if there is none. */
  ghost predicate Deepest(n: Net, k: nat, d: int)
    requires k <= |n.dfs|
  {
    && (forall i: nat, a: int | i < k && Longest(n, n.dfs[i], a) :: a <= d)
    && (if k == 0 then d == 0 else exists i: nat :: i < k && Longest(n, n.dfs[i], d))
  }

  lemma DeepestNext(n: Net, k: nat, d: int, a: int)
    requires k < |n.dfs| && Deepest(n, k, d) && Longest(n, n.dfs[k], a)
    ensures Deepest(n, k + 1, if a > d then a else d)
  {
    var e := if a > d then a else d;
    forall i: nat, b: int | i < k + 1 && Longest(n, n.dfs[i], b) ensures b <= e {
      if i == k {
        LongestIsUnique(n, n.dfs[k], a, b);
      }
    }
    if k == 0 {
      LongestIsUnique(n, n.dfs[k], a, a);
      assert Longest(n, n.dfs[0], e);
    } else {
      var i: nat :| i < k && Longest(n, n.dfs[i], d);
      assert Longest(n, n.dfs[if a > d then k else i], e);
    }
  }

  lemma SettledNext(n: Net, was: seq<Info>, s: seq<Info>, k: nat, d: int)
    requires |s| == n.Size() && k < |n.dfs| && Settled(n, s, k) && OnlyDepths(n, was, s) && Longest(n, n.dfs[k], d)
    ensures var t := s[n.dfs[k] := s[n.dfs[k]].(depth := d)]; Settled(n, t, k + 1) && OnlyDepths(n, was, t)
  {
  }

  /** Writes the depth of the node at position `k`. */
  method SettleNode(n: Net, info: array<Info>, k: nat, ghost was: seq<Info>) returns (d: int)
    requires info.Length == n.Size() && k < |n.dfs| && Settled(n, info[..], k) && OnlyDepths(n, was, info[..])
    modifies info
    ensures Settled(n, info[..], k + 1) && OnlyDepths(n, was, info[..])
    ensures Longest(n, n.dfs[k], d)
  {
    FaninsSettled(n, info[..], k);
    d := CalcDepth(n, info, n.dfs[k]);
    LongestAbove(n, n.dfs[k], info[..], d - 1);
    SettledNext(n, was, info[..], k, d);
    info[n.dfs[k]] := info[n.dfs[k]].(depth := d);
    assert info[..] == old(info[..])[n.dfs[k] := info[n.dfs[k]]];
  }

  method SettleNext(n: Net, info: array<Info>, k: nat, depth: int, ghost was: seq<Info>) returns (max: int)
    requires info.Length == n.Size() && k < |n.dfs| && Settled(n, info[..], k) && OnlyDepths(n, was, info[..])
    requires Deepest(n, k, depth)
    modifies info
    ensures Settled(n, info[..], k + 1) && OnlyDepths(n, was, info[..])
    ensures Deepest(n, k + 1, max)
  {
    var d := SettleNode(n, info, k, was);
    DeepestNext(n, k, depth, d);
    max := if d > depth then d else depth;
  }

  /** Every logic node gets the number of logic nodes on the longest path that ends at it; the result is the
      largest of them.  `info` is freshly zeroed, so the depths of the inputs are 0. */
  method AceCalcNetworkDepth(n: Net, info: array<Info>) returns (depth: int)
    requires info.Length == n.Size() && forall o: nat | o < n.Size() && n.kind[o] != NODE :: info[o].depth == 0
    modifies info
    ensures OnlyDepths(n, old(info[..]), info[..])
    ensures forall i: nat | i < |n.dfs| :: Longest(n, n.dfs[i], info[n.dfs[i]].depth)
    ensures Deepest(n, |n.dfs|, depth)
  {
    depth := 0;
    for i := 0 to |n.dfs|
      invariant Settled(n, info[..], i) && OnlyDepths(n, old(info[..]), info[..])
      invariant Deepest(n, i, depth)
    {
      depth := SettleNext(n, info, i, depth, old(info[..]));
    }
  }
}
